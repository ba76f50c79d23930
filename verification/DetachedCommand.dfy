/** A command run in the background (`packages/executors/src/shell-spawn.ts`, `runCommandDetached`),
    as a machine over its events, and the closure itself. */
module DetachedCommand {
  datatype Signal = Term | Kill

  /** `verdict` is what the exit code and the output amount to. */
  datatype Outcome = TimedOut | SpawnFailed | Ended(verdict: string)

  /** The variables of the closure; `signals` and `outcomes` record what was sent and reported. */
  datatype State = State(
    settled: bool, terminating: bool, timeout: bool, kill: bool,
    signals: seq<Signal>, outcomes: seq<Outcome>)

  const START := State(false, false, true, false, [], [])

  datatype Event = Timeout | KillTimer | ProcessError | ProcessClose(verdict: string)

  predicate Enabled(s: State, e: Event) {
    match e
    case Timeout => s.timeout
    case KillTimer => s.kill
    case _ => true
  }

  function Finish(s: State, outcome: Outcome): State {
    if s.settled then s
    else s.(settled := true, timeout := false, outcomes := s.outcomes + [outcome])
  }

  function Next(s: State, e: Event): State
    requires Enabled(s, e)
  {
    match e
    case Timeout =>
      Finish(s.(timeout := false, terminating := true, signals := s.signals + [Term], kill := true), TimedOut)
    case KillTimer => s.(kill := false, signals := s.signals + [Kill])
    case ProcessError => Finish(if s.terminating then s else s.(kill := false), SpawnFailed)
    case ProcessClose(verdict) => Finish(if s.terminating then s else s.(kill := false), Ended(verdict))
  }

  ghost predicate StepAt(run: seq<State>, events: seq<Event>, k: nat)
    requires |run| == |events| + 1 && k < |events|
  {
    Enabled(run[k], events[k]) && run[k + 1] == Next(run[k], events[k])
  }

  ghost predicate IsRun(run: seq<State>, events: seq<Event>) {
    && |run| == |events| + 1 && run[0] == START
    && forall k :: 0 <= k < |events| ==> StepAt(run, events, k)
  }

  /** What the whole history amounts to: the first of timeout, error and close settles the command,
      and it is signalled if and only if that was the timeout: SIGTERM then, SIGKILL when the grace
      timer fires, which nothing disarms. */
  predicate Account(s: State, events: seq<Event>) {
    var firsts := Settling(events);
    && s.timeout == !s.settled
    && s.outcomes == (if firsts == [] then [] else [OutcomeOf(firsts[0])])
    && s.settled == (firsts != [])
    && s.terminating == (firsts != [] && firsts[0].Timeout?)
    && s.signals == (if !s.terminating then [] else if s.kill then [Term] else [Term, Kill])
    && (s.kill ==> s.terminating)
    && (s.terminating && KillTimer !in events ==> s.kill)
  }

  function Settling(events: seq<Event>): seq<Event> {
    if events == [] then []
    else
      var e := events[|events| - 1];
      Settling(events[..|events| - 1]) + if e.KillTimer? then [] else [e]
  }

  function OutcomeOf(e: Event): Outcome {
    match e
    case Timeout => TimedOut
    case ProcessClose(verdict) => Ended(verdict)
    case _ => SpawnFailed
  }

  lemma SettlingSnoc(events: seq<Event>, e: Event)
    ensures Settling(events + [e]) == Settling(events) + if e.KillTimer? then [] else [e]
  {
    assert (events + [e])[..|events|] == events;
  }

  lemma StepKeepsAccount(s: State, events: seq<Event>, e: Event)
    requires Account(s, events) && Enabled(s, e)
    ensures Account(Next(s, e), events + [e])
  {
    SettlingSnoc(events, e);
  }

  /** In every event order. */
  lemma {:induction false} EveryRunAccounted(run: seq<State>, events: seq<Event>, n: nat)
    requires IsRun(run, events) && n < |run|
    ensures Account(run[n], events[..n])
  {
    if n > 0 {
      EveryRunAccounted(run, events, n - 1);
      assert StepAt(run, events, n - 1);
      StepKeepsAccount(run[n - 1], events[..n - 1], events[n - 1]);
      assert events[..n] == events[..n - 1] + [events[n - 1]];
    }
  }

  class Detached {
    var settled: bool
    var terminating: bool
    var timeoutArmed: bool
    var killArmed: bool
    ghost var signals: seq<Signal>
    ghost var outcomes: seq<Outcome>

    ghost function View(): State
      reads this
    {
      State(settled, terminating, timeoutArmed, killArmed, signals, outcomes)
    }

    twostate predicate Took(e: Event)
      reads this
    {
      Enabled(old(View()), e) && View() == Next(old(View()), e)
    }

    constructor ()
      ensures View() == START
    {
      settled, terminating, timeoutArmed, killArmed := false, false, true, false;
      signals, outcomes := [], [];
    }

    method Complete(outcome: Outcome)
      modifies this`settled, this`timeoutArmed, this`outcomes
      ensures View() == Finish(old(View()), outcome)
    {
      if settled {
        return;
      }
      settled := true;
      timeoutArmed := false;
      outcomes := outcomes + [outcome];
    }

    method OnTimeout()
      requires timeoutArmed
      modifies this
      ensures Took(Timeout)
    {
      timeoutArmed := false;
      terminating := true;
      signals := signals + [Term];
      killArmed := true;
      Complete(TimedOut);
    }

    method OnKillTimer()
      requires killArmed
      modifies this`killArmed, this`signals
      ensures Took(KillTimer)
    {
      killArmed := false;
      signals := signals + [Kill];
    }

    method OnError()
      modifies this
      ensures Took(ProcessError)
    {
      if !terminating {
        killArmed := false;
      }
      Complete(SpawnFailed);
    }

    method OnClose(verdict: string)
      modifies this
      ensures Took(ProcessClose(verdict))
    {
      if !terminating {
        killArmed := false;
      }
      Complete(Ended(verdict));
    }
  }
}
