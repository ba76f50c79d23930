/** The interactive terminal kept for one assignment (`packages/executors/src/shell-spawn.ts`,
    `runPersistentCommand`), as a machine over its events: writes, output, timers, close, exit.

    The timers are unordered: an armed one may fire at any moment. */
module PersistentSession {
  import opened JsText
  import opened Wrappers

  const OUTPUT_TAIL_CHARS: nat := 256_000
  const INLINE_TURN_CHARS: nat := 240

  /** What goes into the terminal.  A long turn, or one of several lines, goes into a file of which
      only the path is typed. */
  datatype Stroke = Turn(body: string, byFile: bool) | Enter | CtrlD

  datatype Signal = Term | Kill

  datatype Outcome = Completed(reason: string) | Failed(tail: string, exitCode: int, signal: int)

  /** Turns on their way to the terminal.  `enters` are the armed timers that will type an Enter;
      `accepted`, `handed` and `typed` record the turns taken in, those taken up, and every stroke. */
  datatype Turns = Turns(
    busy: bool, queue: seq<string>, enters: nat,
    accepted: seq<string>, handed: seq<string>, typed: seq<Stroke>)

  /** Where the session stands; `signals` and `outcomes` record what the process was sent and what
      was reported. */
  datatype Life = Life(
    settled: bool, closing: bool, reason: string, grace: bool, kill: bool,
    signals: seq<Signal>, outcomes: seq<Outcome>)

  /** `output` records everything the terminal showed. */
  datatype State = State(life: Life, turns: Turns, boot: bool, idle: bool, tail: string, output: string)

  const START := State(
    Life(false, false, "assignment_closed", false, false, [], []),
    Turns(true, [], 0, [], [], []),
    true, false, "", "")

  /** `ok`: the terminal takes what is written to it at this moment. */
  datatype Event =
    | Write(text: string, ok: bool)
    | Data(chunk: string)
    | BootTimer(ok: bool)
    | IdleTimer(ok: bool)
    | EnterTimer(ok: bool)
    | Close(given: Option<string>, ok: bool)
    | GraceTimer
    | KillTimer
    | Exit(exitCode: int, signal: int)

  predicate Open(life: Life) {
    !life.settled && !life.closing
  }

  predicate Enabled(s: State, e: Event) {
    match e
    case BootTimer(_) => s.boot
    case IdleTimer(_) => s.idle
    case EnterTimer(_) => s.turns.enters > 0
    case GraceTimer => s.life.grace
    case KillTimer => s.life.kill
    case _ => true
  }

  function Last(text: string, n: nat): string {
    if |text| <= n then text else text[|text| - n..]
  }

  predicate ByFile(body: string) {
    '\n' in body || |body| > INLINE_TURN_CHARS
  }

  function Typing(u: Turns, stroke: Stroke, ok: bool): Turns {
    if ok then u.(typed := u.typed + [stroke]) else u
  }

  /** The first turn of the queue is typed; its Enter comes with a timer. */
  function Submit(u: Turns, ok: bool): Turns
    requires u.queue != []
  {
    var body := TrimEnd(u.queue[0]);
    if body == "" then u.(queue := u.queue[1..])
    else
      Typing(u.(queue := u.queue[1..], busy := true, handed := u.handed + [body],
                enters := u.enters + if ok then 1 else 0),
             Turn(body, ByFile(body)), ok)
  }

  function FlushNext(u: Turns, open: bool, ok: bool): Turns {
    if !open || u.busy || u.queue == [] then u else Submit(u, ok)
  }

  function MarkIdle(u: Turns, open: bool, ok: bool): Turns {
    FlushNext(u.(busy := false), open, ok)
  }

  function AfterWrite(u: Turns, open: bool, text: string, ok: bool): Turns {
    var body := Trim(text);
    if !open || body == "" then u
    else FlushNext(u.(queue := u.queue + [body], accepted := u.accepted + [body]), open, ok)
  }

  function AfterEnter(u: Turns, open: bool, ok: bool): Turns
    requires u.enters > 0
  {
    Typing(u.(enters := u.enters - 1), Enter, open && ok)
  }

  predicate Immediate(reason: string) {
    reason == "meeting_closed" || reason == "run_cancelled" || reason == "assignment_not_live"
  }

  function CloseReason(life: Life, given: Option<string>): string {
    if given.Some? && Trim(given.value) != "" then Trim(given.value) else life.reason
  }

  function Escalate(life: Life): Life {
    life.(grace := false, signals := life.signals + [Term], kill := true)
  }

  function AfterClose(s: State, given: Option<string>, ok: bool): State {
    if !Open(s.life) then s
    else
      var reason := CloseReason(s.life, given);
      var life := s.life.(closing := true, reason := reason);
      if Immediate(reason) then s.(life := Escalate(life))
      else s.(life := life.(grace := true), turns := Typing(s.turns, CtrlD, ok))
  }

  function OutcomeOf(s: State, exitCode: int, signal: int): Outcome {
    if s.life.closing then Completed(s.life.reason) else Failed(s.tail, exitCode, signal)
  }

  function AfterExit(s: State, exitCode: int, signal: int): State {
    if s.life.settled then s
    else
      s.(boot := false, idle := false,
         life := s.life.(settled := true, grace := false, kill := false,
                         outcomes := s.life.outcomes + [OutcomeOf(s, exitCode, signal)]))
  }

  function Next(s: State, e: Event): State
    requires Enabled(s, e)
  {
    match e
    case Write(text, ok) => s.(turns := AfterWrite(s.turns, Open(s.life), text, ok))
    case Data(chunk) =>
      s.(tail := Last(s.tail + chunk, OUTPUT_TAIL_CHARS), output := s.output + chunk,
         turns := s.turns.(busy := true), idle := true)
    case BootTimer(ok) => s.(boot := false, turns := MarkIdle(s.turns, Open(s.life), ok))
    case IdleTimer(ok) => s.(idle := false, turns := MarkIdle(s.turns, Open(s.life), ok))
    case EnterTimer(ok) => s.(turns := AfterEnter(s.turns, Open(s.life), ok))
    case Close(given, ok) => AfterClose(s, given, ok)
    case GraceTimer => s.(life := Escalate(s.life))
    case KillTimer => s.(life := s.life.(kill := false, signals := s.life.signals + [Kill]))
    case Exit(exitCode, signal) => AfterExit(s, exitCode, signal)
  }

  ghost predicate StepAt(run: seq<State>, events: seq<Event>, k: nat)
    requires |run| == |events| + 1 && k < |events|
  {
    Enabled(run[k], events[k]) && run[k + 1] == Next(run[k], events[k])
  }

  /** A run of the session, in any event order. */
  ghost predicate IsRun(run: seq<State>, events: seq<Event>) {
    && |run| == |events| + 1 && run[0] == START
    && forall k :: 0 <= k < |events| ==> StepAt(run, events, k)
  }

  // ---------------------------------------------------------------- turns

  /** Queued turns have something to type. */
  predicate Typable(body: string) {
    body != "" && TrimEnd(body) == body
  }

  /** The turns taken in are those taken up, followed by those still queued: first come, first
      served.  What has been taken up has been typed unless the terminal refused it; see below. */
  predicate QueueKept(u: Turns) {
    (forall k :: 0 <= k < |u.queue| ==> Typable(u.queue[k])) && u.accepted == u.handed + u.queue
  }

  /** And an open session is idle only with an empty queue. */
  predicate TurnsKept(u: Turns, open: bool) {
    QueueKept(u) && (open && !u.busy ==> u.queue == [])
  }

  lemma SubmitKeepsQueue(u: Turns, ok: bool)
    requires QueueKept(u) && u.queue != []
    ensures QueueKept(Submit(u, ok)) && Submit(u, ok).busy
  {
    assert Typable(u.queue[0]);
    assert u.queue == [u.queue[0]] + u.queue[1..];
  }

  lemma FlushKeepsTurns(u: Turns, open: bool, ok: bool)
    requires QueueKept(u)
    ensures TurnsKept(FlushNext(u, open, ok), open)
  {
    if open && !u.busy && u.queue != [] {
      SubmitKeepsQueue(u, ok);
    }
  }

  lemma WriteKeepsTurns(u: Turns, open: bool, text: string, ok: bool)
    requires TurnsKept(u, open)
    ensures TurnsKept(AfterWrite(u, open, text, ok), open)
  {
    var body := Trim(text);
    if open && body != "" {
      TrimmedHasNoEdges(text);
      var v := u.(queue := u.queue + [body], accepted := u.accepted + [body]);
      assert v.accepted == v.handed + v.queue;
      FlushKeepsTurns(v, open, ok);
    }
  }

  lemma StepKeepsTurns(s: State, e: Event)
    requires Enabled(s, e) && TurnsKept(s.turns, Open(s.life))
    ensures TurnsKept(Next(s, e).turns, Open(Next(s, e).life))
  {
    match e {
      case Write(text, ok) => WriteKeepsTurns(s.turns, Open(s.life), text, ok);
      case BootTimer(ok) => FlushKeepsTurns(s.turns.(busy := false), Open(s.life), ok);
      case IdleTimer(ok) => FlushKeepsTurns(s.turns.(busy := false), Open(s.life), ok);
      case _ =>
    }
  }

  /** In every event order. */
  lemma {:induction false} TurnsAreConserved(run: seq<State>, events: seq<Event>, n: nat)
    requires IsRun(run, events) && n < |run|
    ensures TurnsKept(run[n].turns, Open(run[n].life))
  {
    if n > 0 {
      TurnsAreConserved(run, events, n - 1);
      assert StepAt(run, events, n - 1);
      StepKeepsTurns(run[n - 1], events[n - 1]);
    }
  }

  // ---------------------------------------------------------------- turns the terminal refuses

  /** The turns that have been typed. */
  function Bodies(typed: seq<Stroke>): seq<string> {
    if typed == [] then []
    else
      var front, last := Bodies(typed[..|typed| - 1]), typed[|typed| - 1];
      if last.Turn? then front + [last.body] else front
  }

  lemma BodiesSnoc(typed: seq<Stroke>, stroke: Stroke)
    ensures Bodies(typed + [stroke]) == if stroke.Turn? then Bodies(typed) + [stroke.body] else Bodies(typed)
  {
    assert (typed + [stroke])[..|typed|] == typed;
  }

  /** The step takes up a turn while the terminal refuses it.  The turn is gone: it has left the queue
      and nothing types it again. */
  predicate LosesTurn(s: State, e: Event) {
    && Open(s.life)
    && match e
       case Write(text, ok) => Trim(text) != "" && !s.turns.busy && !ok
       case BootTimer(ok) => s.turns.queue != [] && !ok
       case IdleTimer(ok) => s.turns.queue != [] && !ok
       case _ => false
  }

  /** The turns typed are the turns taken up. */
  predicate AllTyped(u: Turns) {
    Bodies(u.typed) == u.handed
  }

  /** From one moment to another: how many more turns were taken up than typed. */
  predicate MoreMissing(u: Turns, v: Turns, lost: nat) {
    |v.handed| - |Bodies(v.typed)| == |u.handed| - |Bodies(u.typed)| + lost
  }

  lemma FlushMisses(u: Turns, open: bool, ok: bool)
    requires QueueKept(u)
    ensures var v, lost := FlushNext(u, open, ok), open && !u.busy && u.queue != [] && !ok;
      && MoreMissing(u, v, if lost then 1 else 0)
      && (AllTyped(u) && !lost ==> AllTyped(v))
  {
    if open && !u.busy && u.queue != [] {
      assert Typable(u.queue[0]);
      BodiesSnoc(u.typed, Turn(u.queue[0], ByFile(u.queue[0])));
    }
  }

  lemma WriteMisses(u: Turns, open: bool, text: string, ok: bool)
    requires TurnsKept(u, open)
    ensures var v, lost := AfterWrite(u, open, text, ok), open && Trim(text) != "" && !u.busy && !ok;
      && MoreMissing(u, v, if lost then 1 else 0)
      && (AllTyped(u) && !lost ==> AllTyped(v))
  {
    var body := Trim(text);
    if open && body != "" {
      TrimmedHasNoEdges(text);
      var v := u.(queue := u.queue + [body], accepted := u.accepted + [body]);
      assert v.accepted == v.handed + v.queue;
      FlushMisses(v, open, ok);
    }
  }

  lemma StepMisses(s: State, e: Event)
    requires Enabled(s, e) && TurnsKept(s.turns, Open(s.life))
    ensures MoreMissing(s.turns, Next(s, e).turns, if LosesTurn(s, e) then 1 else 0)
    ensures AllTyped(s.turns) && !LosesTurn(s, e) ==> AllTyped(Next(s, e).turns)
  {
    match e {
      case Write(text, ok) => WriteMisses(s.turns, Open(s.life), text, ok);
      case BootTimer(ok) => FlushMisses(s.turns.(busy := false), Open(s.life), ok);
      case IdleTimer(ok) => FlushMisses(s.turns.(busy := false), Open(s.life), ok);
      case EnterTimer(_) => BodiesSnoc(s.turns.typed, Enter);
      case Close(_, _) => BodiesSnoc(s.turns.typed, CtrlD);
      case _ =>
    }
  }

  /** Every turn taken up stays typed exactly through the steps that lose none. */
  lemma AllTypedStep(s: State, e: Event)
    requires Enabled(s, e) && TurnsKept(s.turns, Open(s.life)) && AllTyped(s.turns)
    ensures AllTyped(Next(s, e).turns) <==> !LosesTurn(s, e)
  {
    StepMisses(s, e);
  }

  ghost predicate NoneLost(run: seq<State>, events: seq<Event>, n: nat)
    requires IsRun(run, events) && n < |run|
  {
    forall k :: 0 <= k < n ==> !LosesTurn(run[k], events[k])
  }

  lemma {:induction false} TypedOrMissing(run: seq<State>, events: seq<Event>, n: nat)
    requires IsRun(run, events) && n < |run|
    ensures if NoneLost(run, events, n) then AllTyped(run[n].turns)
            else |Bodies(run[n].turns.typed)| < |run[n].turns.handed|
  {
    if n > 0 {
      TypedOrMissing(run, events, n - 1);
      TurnsAreConserved(run, events, n - 1);
      assert StepAt(run, events, n - 1);
      StepMisses(run[n - 1], events[n - 1]);
    }
  }

  /** In every event order: the turns taken in are the turns typed followed by the turns queued, if
      and only if no turn was taken up while the terminal refused it. */
  lemma TurnsTypedIff(run: seq<State>, events: seq<Event>, n: nat)
    requires IsRun(run, events) && n < |run|
    ensures var u := run[n].turns; u.accepted == Bodies(u.typed) + u.queue <==> NoneLost(run, events, n)
  {
    TypedOrMissing(run, events, n);
    TurnsAreConserved(run, events, n);
    var u := run[n].turns;
    if u.accepted == Bodies(u.typed) + u.queue {
      assert |u.accepted| == |Bodies(u.typed)| + |u.queue|;
    }
  }

  /** A turn that waits for the terminal to start, and is refused when it has. */
  lemma RefusedTurnIsLost(a: string) returns (run: seq<State>, events: seq<Event>)
    requires Trim(a) == a != ""
    ensures IsRun(run, events) && |events| == 2 && Open(run[2].life)
    ensures run[2].turns == Turns(true, [], 0, [a], [a], [])
  {
    events := [Write(a, true), BootTimer(false)];
    var s1 := START.(turns := Turns(true, [a], 0, [a], [], []));
    run := [START, s1, START.(boot := false, turns := Turns(true, [], 0, [a], [a], []))];
    TrimmedHasNoEdges(a);
    assert [] + [a] == [a] && [a][1..] == [];
    assert StepAt(run, events, 0) && StepAt(run, events, 1);
  }

  // ---------------------------------------------------------------- signals and completion

  /** What the process was sent, and what is still armed to be sent. */
  predicate SignalsOrdered(life: Life) {
    && (life.signals == [] || life.signals == [Term] || life.signals == [Term, Kill])
    && (life.grace ==> life.closing && life.signals == [])
    && (life.kill ==> life.closing && life.signals == [Term])
    && (life.signals != [] ==> life.closing)
    && (life.closing && !life.settled ==> life.grace || life.signals != [])
  }

  /** A completion has been reported if and only if the process has exited, and then one; it is a
      success, with the reason of the close, exactly when a close had been asked for. */
  predicate CompletedOnce(life: Life) {
    if life.settled then
      && |life.outcomes| == 1 && !life.grace && !life.kill
      && (if life.closing then life.outcomes[0] == Completed(life.reason) else life.outcomes[0].Failed?)
    else life.outcomes == []
  }

  lemma StepKeepsSignals(s: State, e: Event)
    requires Enabled(s, e) && SignalsOrdered(s.life) && CompletedOnce(s.life)
    ensures SignalsOrdered(Next(s, e).life) && CompletedOnce(Next(s, e).life)
  {
  }

  /** In every event order the process gets at most one SIGTERM, then at most one SIGKILL, only
      after a close, and never after it has exited; a session that was asked to close has been
      signalled or has the signal armed; the completion is reported once, at the exit. */
  lemma {:induction false} SignalsInOrder(run: seq<State>, events: seq<Event>, n: nat)
    requires IsRun(run, events) && n < |run|
    ensures SignalsOrdered(run[n].life) && CompletedOnce(run[n].life)
  {
    if n > 0 {
      SignalsInOrder(run, events, n - 1);
      assert StepAt(run, events, n - 1);
      StepKeepsSignals(run[n - 1], events[n - 1]);
    }
  }

  // ---------------------------------------------------------------- after the end

  /** What a session that is no longer open still does. */
  predicate Quiet(s: State, t: State) {
    && !Open(t.life) && t.life.reason == s.life.reason
    && t.turns.typed == s.turns.typed && t.turns.accepted == s.turns.accepted && t.turns.handed == s.turns.handed
    && (s.life.settled ==> t.life == s.life)
  }

  lemma StepStaysQuiet(s: State, e: Event)
    requires Enabled(s, e) && !Open(s.life) && CompletedOnce(s.life)
    ensures Quiet(s, Next(s, e))
  {
  }

  /** Once a session is closing or has exited, nothing more is typed, taken in or taken up; once it
      has exited, no signal is sent and nothing is reported. */
  lemma {:induction false} NothingAfterTheEnd(run: seq<State>, events: seq<Event>, i: nat, j: nat)
    requires IsRun(run, events) && i <= j < |run| && !Open(run[i].life)
    ensures Quiet(run[i], run[j])
  {
    if i < j {
      NothingAfterTheEnd(run, events, i, j - 1);
      SignalsInOrder(run, events, j - 1);
      assert StepAt(run, events, j - 1);
      StepStaysQuiet(run[j - 1], events[j - 1]);
    }
  }

  // ---------------------------------------------------------------- the output tail

  lemma LastOfLast(a: string, b: string, n: nat)
    ensures Last(Last(a, n) + b, n) == Last(a + b, n)
  {
    if |a| > n {
      assert a + b == a[..|a| - n] + (Last(a, n) + b);
    }
  }

  /** The tail is always the end of everything the terminal ever showed. */
  lemma {:induction false} TailIsEndOfOutput(run: seq<State>, events: seq<Event>, n: nat)
    requires IsRun(run, events) && n < |run|
    ensures run[n].tail == Last(run[n].output, OUTPUT_TAIL_CHARS)
  {
    if n > 0 {
      TailIsEndOfOutput(run, events, n - 1);
      assert StepAt(run, events, n - 1);
      if events[n - 1].Data? {
        LastOfLast(run[n - 1].output, events[n - 1].chunk, OUTPUT_TAIL_CHARS);
      }
    }
  }

  // ---------------------------------------------------------------- one Enter per turn

  /** Turn, Enter, Turn, Enter, ... with the Enter of the last turn either typed or armed. */
  predicate Orderly(typed: seq<Stroke>, enters: nat) {
    if typed == [] then enters == 0
    else
      match typed[|typed| - 1]
      case Enter => enters == 0 && Orderly(typed[..|typed| - 1], 1)
      case Turn(_, _) => enters == 1 && Orderly(typed[..|typed| - 1], 0)
      case CtrlD => false
  }

  /** The step types a turn. */
  predicate TypesTurn(s: State, e: Event) {
    match e
    case Write(text, ok) => Trim(text) != "" && !s.turns.busy && ok
    case BootTimer(ok) => s.turns.queue != [] && ok
    case IdleTimer(ok) => s.turns.queue != [] && ok
    case _ => false
  }

  /** What breaks the order: a turn typed while the Enter of the one before is still armed, or an
      Enter the terminal does not take. */
  predicate Disrupts(s: State, e: Event) {
    s.turns.enters > 0 && (TypesTurn(s, e) || (e.EnterTimer? && !e.ok))
  }

  lemma FlushTypes(u: Turns, open: bool, ok: bool)
    requires QueueKept(u)
    ensures var v := FlushNext(u, open, ok);
      if open && !u.busy && u.queue != [] && ok
      then v.enters == u.enters + 1 && v.typed == u.typed + [Turn(u.queue[0], ByFile(u.queue[0]))]
      else v.enters == u.enters && v.typed == u.typed
  {
    if u.queue != [] {
      assert Typable(u.queue[0]);
    }
  }

  lemma OrderlyTurn(typed: seq<Stroke>, enters: nat, stroke: Stroke)
    requires Orderly(typed, enters) && stroke.Turn?
    ensures Orderly(typed + [stroke], enters + 1) <==> enters == 0
  {
    assert (typed + [stroke])[..|typed|] == typed;
  }

  lemma EnterStaysOrderly(u: Turns, ok: bool)
    requires Orderly(u.typed, u.enters) && u.enters > 0
    ensures var v := AfterEnter(u, true, ok); Orderly(v.typed, v.enters) <==> ok
  {
    assert (u.typed + [Enter])[..|u.typed|] == u.typed;
  }

  lemma FlushStaysOrderly(u: Turns, ok: bool)
    requires QueueKept(u) && Orderly(u.typed, u.enters)
    ensures var v := FlushNext(u, true, ok);
      Orderly(v.typed, v.enters) <==> !(u.enters > 0 && !u.busy && u.queue != [] && ok)
  {
    FlushTypes(u, true, ok);
    if !u.busy && u.queue != [] && ok {
      OrderlyTurn(u.typed, u.enters, Turn(u.queue[0], ByFile(u.queue[0])));
    }
  }

  lemma WriteStaysOrderly(u: Turns, text: string, ok: bool)
    requires TurnsKept(u, true) && Orderly(u.typed, u.enters)
    ensures var v := AfterWrite(u, true, text, ok);
      Orderly(v.typed, v.enters) <==> !(u.enters > 0 && Trim(text) != "" && !u.busy && ok)
  {
    var body := Trim(text);
    if body != "" {
      TrimmedHasNoEdges(text);
      var v := u.(queue := u.queue + [body], accepted := u.accepted + [body]);
      assert v.accepted == v.handed + v.queue;
      FlushStaysOrderly(v, ok);
    }
  }

  /** While a session is open, every turn gets its own Enter, typed before the next turn, exactly as
      long as no step disrupts. */
  lemma OrderlyStep(s: State, e: Event)
    requires Enabled(s, e) && Open(s.life) && !e.Close? && !e.Exit?
    requires TurnsKept(s.turns, true) && Orderly(s.turns.typed, s.turns.enters)
    ensures Orderly(Next(s, e).turns.typed, Next(s, e).turns.enters) <==> !Disrupts(s, e)
  {
    match e {
      case Write(text, ok) => WriteStaysOrderly(s.turns, text, ok);
      case BootTimer(ok) => FlushStaysOrderly(s.turns.(busy := false), ok);
      case IdleTimer(ok) => FlushStaysOrderly(s.turns.(busy := false), ok);
      case EnterTimer(ok) => EnterStaysOrderly(s.turns, ok);
      case _ =>
    }
  }

  /** The Enters typed and armed are at most one for each turn typed. */
  predicate EntersBounded(typed: seq<Stroke>, enters: nat) {
    Enters(typed) + enters <= |Bodies(typed)|
  }

  function Enters(typed: seq<Stroke>): nat {
    if typed == [] then 0 else Enters(typed[..|typed| - 1]) + if typed[|typed| - 1].Enter? then 1 else 0
  }

  lemma EntersSnoc(typed: seq<Stroke>, stroke: Stroke)
    ensures Enters(typed + [stroke]) == Enters(typed) + if stroke.Enter? then 1 else 0
  {
    assert (typed + [stroke])[..|typed|] == typed;
  }

  lemma {:induction false} OrderlyCounts(typed: seq<Stroke>, enters: nat)
    requires Orderly(typed, enters)
    ensures Enters(typed) + enters == |Bodies(typed)|
  {
    if typed != [] {
      var front := typed[..|typed| - 1];
      OrderlyCounts(front, if typed[|typed| - 1].Enter? then 1 else 0);
    }
  }

  /** Nothing is typed, a turn with its Enter armed, or an Enter; or an Enter fails. */
  predicate StrokeStep(u: Turns, v: Turns) {
    if v.typed == u.typed then v.enters == u.enters || v.enters == u.enters - 1
    else
      && |v.typed| == |u.typed| + 1 && v.typed[..|u.typed|] == u.typed
      && var stroke := v.typed[|u.typed|];
         || (stroke.Turn? && v.enters == u.enters + 1)
         || (stroke.Enter? && v.enters == u.enters - 1)
  }

  /** Strokes that are out of order stay so, whatever is typed behind them. */
  lemma TypedStaysDisorderly(u: Turns, v: Turns)
    requires !Orderly(u.typed, u.enters) && EntersBounded(u.typed, u.enters)
    requires StrokeStep(u, v)
    ensures !Orderly(v.typed, v.enters) && EntersBounded(v.typed, v.enters)
  {
    if |v.typed| > |u.typed| {
      assert v.typed == u.typed + [v.typed[|u.typed|]];
      EntersSnoc(u.typed, v.typed[|u.typed|]);
      BodiesSnoc(u.typed, v.typed[|u.typed|]);
    } else if v.enters < u.enters && Orderly(v.typed, v.enters) {
      OrderlyCounts(v.typed, v.enters);
    }
  }

  /** What an open session's steps can do to the strokes. */
  lemma StrokesOf(s: State, e: Event)
    requires Enabled(s, e) && Open(s.life) && !e.Close? && !e.Exit? && TurnsKept(s.turns, true)
    ensures StrokeStep(s.turns, Next(s, e).turns)
  {
    match e {
      case Write(text, ok) =>
        var body := Trim(text);
        if body != "" {
          TrimmedHasNoEdges(text);
          var w := s.turns.(queue := s.turns.queue + [body], accepted := s.turns.accepted + [body]);
          assert w.accepted == w.handed + w.queue;
          FlushTypes(w, true, ok);
        }
      case BootTimer(ok) => FlushTypes(s.turns.(busy := false), true, ok);
      case IdleTimer(ok) => FlushTypes(s.turns.(busy := false), true, ok);
      case _ =>
    }
  }

  lemma BoundedStep(s: State, e: Event)
    requires Enabled(s, e) && Open(s.life) && !e.Close? && !e.Exit? && TurnsKept(s.turns, true)
    requires EntersBounded(s.turns.typed, s.turns.enters)
    ensures EntersBounded(Next(s, e).turns.typed, Next(s, e).turns.enters)
  {
    StrokesOf(s, e);
    var u, v := s.turns, Next(s, e).turns;
    if |v.typed| > |u.typed| {
      assert v.typed == u.typed + [v.typed[|u.typed|]];
      EntersSnoc(u.typed, v.typed[|u.typed|]);
      BodiesSnoc(u.typed, v.typed[|u.typed|]);
    }
  }

  ghost predicate StaysOpen(events: seq<Event>, n: nat)
    requires n <= |events|
  {
    forall k :: 0 <= k < n ==> !events[k].Close? && !events[k].Exit?
  }

  ghost predicate Undisturbed(run: seq<State>, events: seq<Event>, n: nat)
    requires IsRun(run, events) && n < |run|
  {
    forall k :: 0 <= k < n ==> !Disrupts(run[k], events[k])
  }

  lemma OrderAtStep(s: State, e: Event)
    requires Enabled(s, e) && Open(s.life) && !e.Close? && !e.Exit? && TurnsKept(s.turns, true)
    requires EntersBounded(s.turns.typed, s.turns.enters)
    ensures var u, v := s.turns, Next(s, e).turns;
      && Open(Next(s, e).life) && EntersBounded(v.typed, v.enters)
      && (Orderly(v.typed, v.enters) <==> Orderly(u.typed, u.enters) && !Disrupts(s, e))
  {
    BoundedStep(s, e);
    if Orderly(s.turns.typed, s.turns.enters) {
      OrderlyStep(s, e);
    } else {
      StrokesOf(s, e);
      TypedStaysDisorderly(s.turns, Next(s, e).turns);
    }
  }

  lemma {:induction false} OrderlyOrNot(run: seq<State>, events: seq<Event>, n: nat)
    requires IsRun(run, events) && n < |run| && StaysOpen(events, n)
    ensures var u := run[n].turns;
      && Open(run[n].life) && EntersBounded(u.typed, u.enters)
      && (Orderly(u.typed, u.enters) <==> Undisturbed(run, events, n))
  {
    if n > 0 {
      OrderlyOrNot(run, events, n - 1);
      TurnsAreConserved(run, events, n - 1);
      assert StepAt(run, events, n - 1);
      OrderAtStep(run[n - 1], events[n - 1]);
    }
  }

  /** In every run of an open session: each turn got its own Enter before the next one, or has it
      armed, if and only if no step has disrupted. */
  lemma EveryTurnGetsItsEnterIff(run: seq<State>, events: seq<Event>, n: nat)
    requires IsRun(run, events) && n < |run| && StaysOpen(events, n)
    ensures Orderly(run[n].turns.typed, run[n].turns.enters) <==> Undisturbed(run, events, n)
  {
    OrderlyOrNot(run, events, n);
  }

  function Queued(queue: seq<string>, idle: bool): State {
    START.(turns := Turns(true, queue, 0, queue, [], []), idle := idle)
  }

  function OneTyped(a: string, b: string): State {
    START.(turns := Turns(true, [b], 1, [a, b], [a], [Turn(a, ByFile(a))]))
  }

  function BothTyped(a: string, b: string): State {
    START.(boot := false,
           turns := Turns(true, [], 2, [a, b], [a, b], [Turn(a, ByFile(a)), Turn(b, ByFile(b))]))
  }

  lemma BothQueued(a: string, b: string)
    requires Trim(a) == a != "" && Trim(b) == b != ""
    ensures Next(START, Write(a, true)) == Queued([a], false)
    ensures Next(Queued([a], false), Write(b, true)) == Queued([a, b], false)
    ensures Next(Queued([a, b], false), Data("")) == Queued([a, b], true)
  {
    assert [] + [a] == [a] && [a] + [b] == [a, b];
  }

  lemma IdleTypesFirst(a: string, b: string)
    requires Typable(a)
    ensures Next(Queued([a, b], true), IdleTimer(true)) == OneTyped(a, b)
  {
    assert [a, b][1..] == [b];
  }

  lemma BootTypesSecond(a: string, b: string)
    requires Typable(b)
    ensures Next(OneTyped(a, b), BootTimer(true)) == BothTyped(a, b)
  {
    assert [b][1..] == [];
  }

  /** The boot timer is not stopped by the first output, so it can type a turn over the one the idle
      timer has just typed: two turns, no Enter between them. */
  lemma BootTimerRunsTurnsTogether(a: string, b: string) returns (run: seq<State>, events: seq<Event>)
    requires Trim(a) == a != "" && Trim(b) == b != ""
    ensures IsRun(run, events) && |events| == 5 && forall k :: 0 <= k < 5 ==> !events[k].Close? && !events[k].Exit?
    ensures run[5].turns.typed == [Turn(a, ByFile(a)), Turn(b, ByFile(b))] && run[5].turns.enters == 2
  {
    events := [Write(a, true), Write(b, true), Data(""), IdleTimer(true), BootTimer(true)];
    run := [START, Queued([a], false), Queued([a, b], false), Queued([a, b], true), OneTyped(a, b), BothTyped(a, b)];
    TrimmedHasNoEdges(a);
    TrimmedHasNoEdges(b);
    forall k | 0 <= k < 5
      ensures StepAt(run, events, k)
    {
      if k <= 2 {
        BothQueued(a, b);
      } else if k == 3 {
        IdleTypesFirst(a, b);
      } else {
        BootTypesSecond(a, b);
      }
    }
  }
}
