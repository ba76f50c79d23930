/** How a session is closed, what its exit reports, and which turns are typed when, by the events that
    happened (`packages/executors/src/shell-spawn.ts`). */
module SessionClose {
  import opened JsText
  import opened PersistentSession

  // ---------------------------------------------------------------- closing

  /** An open session has no reason of its own, has sent nothing and armed nothing. */
  predicate Unclosed(life: Life) {
    Open(life) ==> life.reason == "assignment_closed" && life.signals == [] && !life.grace && !life.kill
  }

  lemma {:induction false} AlwaysUnclosed(run: seq<State>, events: seq<Event>, n: nat)
    requires IsRun(run, events) && n < |run|
    ensures Unclosed(run[n].life)
  {
    SignalsInOrder(run, events, n);
    if n > 0 {
      AlwaysUnclosed(run, events, n - 1);
      assert StepAt(run, events, n - 1);
    }
  }

  /** The reason a close gives: its own, trimmed, unless that is missing or blank. */
  ghost predicate Gives(e: Event, reason: string) {
    && e.Close?
    && if e.given.Some? && Trim(e.given.value) != "" then reason == Trim(e.given.value) else reason == "assignment_closed"
  }

  ghost predicate Urgent(reason: string) {
    reason in {"meeting_closed", "run_cancelled", "assignment_not_live"}
  }

  /** Step `i` closes the session, which was open. */
  ghost predicate ClosesAt(run: seq<State>, events: seq<Event>, i: nat)
    requires |run| == |events| + 1
  {
    i < |events| && events[i].Close? && Open(run[i].life)
  }

  /** The first close of an open session sends SIGTERM in its own step exactly for the urgent reasons.
      For any other it types Ctrl-D, if the terminal takes it, and arms the grace timer. */
  lemma CloseDoes(run: seq<State>, events: seq<Event>, i: nat, reason: string)
    requires IsRun(run, events) && ClosesAt(run, events, i) && Gives(events[i], reason)
    ensures var s, t := run[i], run[i + 1];
      && t.life.closing && !t.life.settled && t.life.reason == reason
      && (if Urgent(reason) then
            t.life.signals == [Term] && t.life.kill && !t.life.grace && t.turns == s.turns
          else
            && t.life.signals == [] && !t.life.kill && t.life.grace
            && t.turns == s.turns.(typed := s.turns.typed + if events[i].ok then [CtrlD] else []))
      && t.boot == s.boot && t.idle == s.idle && t.tail == s.tail && t.output == s.output
  {
    AlwaysUnclosed(run, events, i);
    assert StepAt(run, events, i);
    assert run[i].turns.typed + [] == run[i].turns.typed;
  }

  /** What the exit of a closed session reports is the reason its first close gave. */
  lemma ReportsFirstReason(run: seq<State>, events: seq<Event>, i: nat, n: nat, reason: string)
    requires IsRun(run, events) && ClosesAt(run, events, i) && Gives(events[i], reason)
    requires i < n < |run| && run[n].life.settled
    ensures run[n].life.outcomes == [Completed(reason)]
  {
    CloseDoes(run, events, i, reason);
    NothingAfterTheEnd(run, events, i + 1, n);
    SignalsInOrder(run, events, n);
    StaysClosing(run, events, i + 1, n);
  }

  lemma {:induction false} StaysClosing(run: seq<State>, events: seq<Event>, i: nat, n: nat)
    requires IsRun(run, events) && i <= n < |run| && run[i].life.closing
    ensures run[n].life.closing
  {
    if i < n {
      StaysClosing(run, events, i, n - 1);
      assert StepAt(run, events, n - 1);
    }
  }

  /** A session that was never closed is open until it exits. */
  lemma {:induction false} OpenUntilExit(run: seq<State>, events: seq<Event>, n: nat)
    requires IsRun(run, events) && n < |run| && forall k :: 0 <= k < n ==> !events[k].Close? && !events[k].Exit?
    ensures Open(run[n].life)
  {
    if n > 0 {
      OpenUntilExit(run, events, n - 1);
      SignalsInOrder(run, events, n - 1);
      AlwaysUnclosed(run, events, n - 1);
      assert StepAt(run, events, n - 1);
    }
  }

  /** An exit that nobody asked for is reported as a failure, with its code and signal and the last
      256000 characters that the terminal showed until then. */
  lemma UnaskedExitFails(run: seq<State>, events: seq<Event>, i: nat, n: nat)
    requires IsRun(run, events) && i < n < |run| && events[i].Exit?
    requires forall k :: 0 <= k < i ==> !events[k].Close? && !events[k].Exit?
    ensures var shown := run[i].output;
      var tail := if |shown| <= 256_000 then shown else shown[|shown| - 256_000..];
      run[n].life.settled && run[n].life.outcomes == [Failed(tail, events[i].exitCode, events[i].signal)]
  {
    OpenUntilExit(run, events, i);
    SignalsInOrder(run, events, i);
    TailIsEndOfOutput(run, events, i);
    assert StepAt(run, events, i);
    NothingAfterTheEnd(run, events, i + 1, n);
  }

  /** A grace timer that fires sends SIGTERM and arms the kill timer; a kill timer that fires sends
      SIGKILL; the exit disarms everything. */
  lemma TimersDo(run: seq<State>, events: seq<Event>, n: nat)
    requires IsRun(run, events) && n < |events|
    ensures var t := run[n + 1];
      && (events[n].GraceTimer? ==> t.life.signals == [Term] && t.life.kill && !t.life.grace)
      && (events[n].KillTimer? ==> t.life.signals == [Term, Kill] && !t.life.kill)
      && (events[n].Exit? && !run[n].life.settled ==> !t.boot && !t.idle && !t.life.grace && !t.life.kill)
  {
    SignalsInOrder(run, events, n);
    assert StepAt(run, events, n);
    assert [] + [Term] == [Term] && [Term] + [Kill] == [Term, Kill];
  }

  // ---------------------------------------------------------------- what the terminal shows

  ghost function Shown(events: seq<Event>, n: nat): string
    requires n <= |events|
  {
    if n == 0 then "" else Shown(events, n - 1) + if events[n - 1].Data? then events[n - 1].chunk else ""
  }

  /** The output is everything the terminal showed, in order. */
  lemma {:induction false} OutputIsShown(run: seq<State>, events: seq<Event>, n: nat)
    requires IsRun(run, events) && n < |run|
    ensures run[n].output == Shown(events, n)
  {
    if n > 0 {
      OutputIsShown(run, events, n - 1);
      assert StepAt(run, events, n - 1);
    }
  }

  // ---------------------------------------------------------------- which turns are taken in

  /** The texts written while the session was open, trimmed and without the blank ones. */
  ghost function Written(run: seq<State>, events: seq<Event>, n: nat): seq<string>
    requires |run| == |events| + 1 && n < |run|
  {
    if n == 0 then []
    else
      Written(run, events, n - 1) +
        if events[n - 1].Write? && !run[n - 1].life.closing && !run[n - 1].life.settled && Trim(events[n - 1].text) != ""
        then [Trim(events[n - 1].text)] else []
  }

  lemma StepAccepts(s: State, e: Event)
    requires Enabled(s, e)
    ensures Next(s, e).turns.accepted == s.turns.accepted +
      if e.Write? && !s.life.closing && !s.life.settled && Trim(e.text) != "" then [Trim(e.text)] else []
  {
    assert s.turns.accepted + [] == s.turns.accepted;
  }

  /** The turns taken in are exactly the texts written to the open session. */
  lemma {:induction false} AcceptedIsWritten(run: seq<State>, events: seq<Event>, n: nat)
    requires IsRun(run, events) && n < |run|
    ensures run[n].turns.accepted == Written(run, events, n)
  {
    if n > 0 {
      AcceptedIsWritten(run, events, n - 1);
      assert StepAt(run, events, n - 1);
      StepAccepts(run[n - 1], events[n - 1]);
    }
  }

  // ---------------------------------------------------------------- how turns are typed

  /** A turn goes into a file exactly when it has several lines or more than 240 characters. */
  ghost predicate RightlyTyped(stroke: Stroke) {
    stroke.Turn? ==> (stroke.byFile <==> |stroke.body| > 240 || exists k :: 0 <= k < |stroke.body| && stroke.body[k] == '\n')
  }

  ghost predicate AllRightlyTyped(typed: seq<Stroke>) {
    forall k :: 0 <= k < |typed| ==> RightlyTyped(typed[k])
  }

  lemma SubmitRightlyTyped(u: Turns, ok: bool)
    requires u.queue != [] && AllRightlyTyped(u.typed)
    ensures AllRightlyTyped(Submit(u, ok).typed)
  {
    var body := TrimEnd(u.queue[0]);
    assert '\n' in body <==> exists k :: 0 <= k < |body| && body[k] == '\n';
  }

  lemma StepRightlyTyped(s: State, e: Event)
    requires Enabled(s, e) && AllRightlyTyped(s.turns.typed)
    ensures AllRightlyTyped(Next(s, e).turns.typed)
  {
    var u := s.turns;
    match e {
      case Write(text, ok) =>
        SubmitRightlyTyped(u.(queue := u.queue + [Trim(text)], accepted := u.accepted + [Trim(text)]), ok);
      case BootTimer(ok) =>
        if u.queue != [] {
          SubmitRightlyTyped(u.(busy := false), ok);
        }
      case IdleTimer(ok) =>
        if u.queue != [] {
          SubmitRightlyTyped(u.(busy := false), ok);
        }
      case _ =>
    }
  }

  lemma {:induction false} TurnsRightlyTyped(run: seq<State>, events: seq<Event>, n: nat)
    requires IsRun(run, events) && n < |run|
    ensures AllRightlyTyped(run[n].turns.typed)
  {
    if n > 0 {
      TurnsRightlyTyped(run, events, n - 1);
      assert StepAt(run, events, n - 1);
      StepRightlyTyped(run[n - 1], events[n - 1]);
    }
  }

  // ---------------------------------------------------------------- when turns are taken up

  /** Step `k` says that the terminal is at rest: a boot or idle timer has fired. */
  ghost predicate Rests(events: seq<Event>, k: nat)
    requires k < |events|
  {
    events[k].BootTimer? || events[k].IdleTimer?
  }

  /** Step `k` says that it is at work: it shows something, or a turn is taken up. */
  ghost predicate Works(run: seq<State>, events: seq<Event>, k: nat)
    requires |run| == |events| + 1 && k < |events|
  {
    events[k].Data? || |run[k + 1].turns.handed| > |run[k].turns.handed|
  }

  /** The terminal has come to rest, and has not been at work since. */
  ghost predicate AtRest(run: seq<State>, events: seq<Event>, n: nat)
    requires |run| == |events| + 1 && n < |run|
  {
    exists j :: 0 <= j < n && Rests(events, j) && forall k :: j <= k < n ==> !Works(run, events, k)
  }

  lemma StepBusy(s: State, e: Event)
    requires Enabled(s, e) && TurnsKept(s.turns, Open(s.life))
    ensures var t := Next(s, e);
      && (|t.turns.handed| > |s.turns.handed| ==> t.turns.busy && (!s.turns.busy || e.BootTimer? || e.IdleTimer?))
      && (e.Data? ==> t.turns.busy)
      && (!e.BootTimer? && !e.IdleTimer? && s.turns.busy ==> t.turns.busy)
      && |t.turns.handed| >= |s.turns.handed|
  {
    match e {
      case Write(text, _) =>
        TrimmedHasNoEdges(text);
      case _ =>
    }
  }

  lemma {:induction false} IdleIsAtRest(run: seq<State>, events: seq<Event>, n: nat)
    requires IsRun(run, events) && n < |run| && !run[n].turns.busy
    ensures AtRest(run, events, n)
  {
    if n > 0 {
      TurnsAreConserved(run, events, n - 1);
      assert StepAt(run, events, n - 1);
      StepBusy(run[n - 1], events[n - 1]);
      if Rests(events, n - 1) {
        assert !Works(run, events, n - 1);
      } else {
        IdleIsAtRest(run, events, n - 1);
        var j :| 0 <= j < n - 1 && Rests(events, j) && forall k :: j <= k < n - 1 ==> !Works(run, events, k);
        assert !Works(run, events, n - 1);
      }
    }
  }

  /** A turn is taken up only by a boot or idle timer, or by a write to a terminal at rest: one that
      has shown nothing, and was given nothing, since such a timer fired. */
  lemma TakenUpAtRest(run: seq<State>, events: seq<Event>, n: nat)
    requires IsRun(run, events) && n < |events| && |run[n + 1].turns.handed| > |run[n].turns.handed|
    ensures Rests(events, n) || (events[n].Write? && AtRest(run, events, n))
  {
    TurnsAreConserved(run, events, n);
    assert StepAt(run, events, n);
    StepBusy(run[n], events[n]);
    if !Rests(events, n) {
      IdleIsAtRest(run, events, n);
    }
  }
}
