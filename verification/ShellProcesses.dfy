/** The closures that run commands (`packages/executors/src/shell-spawn.ts`), with their variables
    as fields. */
module ShellProcesses {
  import opened JsText
  import opened Wrappers
  import opened PersistentSession

  class PersistentShell {
    var settled: bool
    var closeRequested: bool
    var closeReason: string
    var outputTail: string
    var turnBusy: bool
    var turnQueue: seq<string>
    var bootArmed: bool
    var idleArmed: bool
    var submitsArmed: nat
    var graceArmed: bool
    var killArmed: bool

    ghost var accepted: seq<string>
    ghost var handed: seq<string>
    ghost var typed: seq<Stroke>
    ghost var signals: seq<Signal>
    ghost var outcomes: seq<Outcome>
    ghost var output: string

    ghost function TurnsNow(): Turns
      reads this
    {
      Turns(turnBusy, turnQueue, submitsArmed, accepted, handed, typed)
    }

    ghost function LifeNow(): Life
      reads this
    {
      Life(settled, closeRequested, closeReason, graceArmed, killArmed, signals, outcomes)
    }

    ghost function View(): State
      reads this
    {
      State(LifeNow(), TurnsNow(), bootArmed, idleArmed, outputTail, output)
    }

    /** What the next event makes of the session.  Every method below states the parts its event can
        change; its frame leaves the others as they were. */
    ghost function Becomes(e: Event): State
      requires Enabled(View(), e)
      reads this
    {
      Next(View(), e)
    }

    constructor ()
      ensures View() == START
    {
      settled, closeRequested, closeReason, outputTail := false, false, "assignment_closed", "";
      turnBusy, turnQueue, submitsArmed := true, [], 0;
      bootArmed, idleArmed, graceArmed, killArmed := true, false, false, false;
      accepted, handed, typed, signals, outcomes, output := [], [], [], [], [], "";
    }

    method SubmitTurn(text: string, ok: bool)
      modifies this`turnBusy, this`submitsArmed, this`handed, this`typed
      ensures var rest := old(TurnsNow());
        TurnsNow() == Submit(rest.(queue := [text] + rest.queue), ok)
    {
      var body := TrimEnd(text);
      assert ([text] + turnQueue)[1..] == turnQueue;
      if body == "" {
        return;
      }
      turnBusy := true;
      handed := handed + [body];
      if ok {
        typed := typed + [Turn(body, ByFile(body))];
        submitsArmed := submitsArmed + 1;
      }
    }

    method FlushNextTurn(ok: bool)
      modifies this`turnQueue, this`turnBusy, this`submitsArmed, this`handed, this`typed
      ensures TurnsNow() == FlushNext(old(TurnsNow()), Open(LifeNow()), ok)
    {
      if settled || closeRequested || turnBusy || |turnQueue| == 0 {
        return;
      }
      var next := turnQueue[0];
      assert turnQueue == [next] + turnQueue[1..];
      turnQueue := turnQueue[1..];
      SubmitTurn(next, ok);
    }

    method Write(text: string, ok: bool)
      modifies this`turnQueue, this`turnBusy, this`submitsArmed, this`accepted, this`handed, this`typed
      ensures var next := old(Becomes(Event.Write(text, ok)));
        TurnsNow() == next.turns
    {
      if settled || closeRequested {
        return;
      }
      var body := Trim(text);
      if body == "" {
        return;
      }
      turnQueue := turnQueue + [body];
      accepted := accepted + [body];
      if !turnBusy {
        FlushNextTurn(ok);
      }
    }

    method OnData(chunk: string)
      modifies this`outputTail, this`output, this`turnBusy, this`idleArmed
      ensures var next := old(Becomes(Data(chunk)));
        outputTail == next.tail && output == next.output && turnBusy == next.turns.busy && idleArmed == next.idle
    {
      outputTail := Last(outputTail + chunk, OUTPUT_TAIL_CHARS);
      output := output + chunk;
      turnBusy := true;
      idleArmed := true;
    }

    method OnBootTimer(ok: bool)
      requires bootArmed
      modifies this`bootArmed, this`turnQueue, this`turnBusy, this`submitsArmed, this`handed, this`typed
      ensures var next := old(Becomes(BootTimer(ok)));
        TurnsNow() == next.turns && bootArmed == next.boot
    {
      bootArmed := false;
      turnBusy := false;
      FlushNextTurn(ok);
    }

    method OnIdleTimer(ok: bool)
      requires idleArmed
      modifies this`idleArmed, this`turnQueue, this`turnBusy, this`submitsArmed, this`handed, this`typed
      ensures var next := old(Becomes(IdleTimer(ok)));
        TurnsNow() == next.turns && idleArmed == next.idle
    {
      idleArmed := false;
      turnBusy := false;
      FlushNextTurn(ok);
    }

    method OnSubmitTimer(ok: bool)
      requires submitsArmed > 0
      modifies this`submitsArmed, this`typed
      ensures var next := old(Becomes(EnterTimer(ok)));
        submitsArmed == next.turns.enters && typed == next.turns.typed
    {
      submitsArmed := submitsArmed - 1;
      if settled || closeRequested {
        return;
      }
      if ok {
        typed := typed + [Enter];
      }
    }

    method Terminate()
      modifies this`signals, this`killArmed, this`graceArmed
      ensures LifeNow() == Escalate(old(LifeNow()))
    {
      graceArmed := false;
      signals := signals + [Term];
      killArmed := true;
    }

    method Close(given: Option<string>, ok: bool)
      modifies this`closeRequested, this`closeReason, this`graceArmed, this`killArmed, this`signals, this`typed
      ensures var next := old(Becomes(Event.Close(given, ok)));
        LifeNow() == next.life && typed == next.turns.typed
    {
      if settled {
        return;
      }
      if !closeRequested {
        closeRequested := true;
        if given.Some? && Trim(given.value) != "" {
          closeReason := Trim(given.value);
        }
        if Immediate(closeReason) {
          Terminate();
        } else {
          if ok {
            typed := typed + [CtrlD];
          }
          graceArmed := true;
        }
      }
    }

    method OnGraceTimer()
      requires graceArmed
      modifies this`signals, this`killArmed, this`graceArmed
      ensures var next := old(Becomes(GraceTimer));
        LifeNow() == next.life
    {
      Terminate();
    }

    method OnKillTimer()
      requires killArmed
      modifies this`signals, this`killArmed
      ensures var next := old(Becomes(KillTimer));
        LifeNow() == next.life
    {
      killArmed := false;
      signals := signals + [Kill];
    }

    method OnExit(exitCode: int, signal: int)
      modifies this`settled, this`bootArmed, this`idleArmed, this`graceArmed, this`killArmed, this`outcomes
      ensures var next := old(Becomes(Exit(exitCode, signal)));
        LifeNow() == next.life && bootArmed == next.boot && idleArmed == next.idle
    {
      if settled {
        return;
      }
      settled := true;
      bootArmed, idleArmed, graceArmed, killArmed := false, false, false, false;
      var outcome := if closeRequested then Completed(closeReason) else Failed(outputTail, exitCode, signal);
      outcomes := outcomes + [outcome];
    }
  }
}
