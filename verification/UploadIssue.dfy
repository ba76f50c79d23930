/** Which intents the upload service issues: what a call is answered, by what it asks for and what is
    on record; and what that means over every run. */
module UploadIssue {
  import opened Wrappers
  import opened UploadIntents
  import opened UploadQuota
  import opened UploadLifecycle

  // ---------------------------------------------------------------- the first stretch of a call

  /** The intent was issued to the same actor, for the same run and step, under the same key. */
  ghost predicate SameRequest(r: Record, input: Input) {
    r.input.actor == input.actor && r.input.run == input.run && r.input.step == input.step && r.input.key == input.key
  }

  ghost predicate Requested(s: State, id: Id, input: Input) {
    id in s.records && SameRequest(s.records[id], input)
  }

  /** No file of more than 25 MiB, and not more than 50 MiB in all. */
  ghost predicate SmallEnough(input: Input) {
    (forall k :: 0 <= k < |input.files| ==> input.files[k].size <= 26_214_400) && Total(input.files) <= 52_428_800
  }

  ghost predicate Answered(s: State, call: nat)
    requires Turn(s, call)
  {
    var input, phase := s.calls[call].input, Next(s, Enter(call)).calls[call].phase;
    && (forall id :: Requested(s, id, input) ==>
          var r := s.records[id].input;
          phase == Done(if r.branch == input.branch && r.space == input.space && r.files == input.files
                        then Returned(id) else Rejected(ReplayMismatch)))
    && ((forall id :: !Requested(s, id, input)) ==>
          phase == if SmallEnough(input) then WalkingRun(s.records) else Done(Rejected(QuotaExceeded)))
  }

  lemma EnterAnswers(s: State, call: nat)
    requires Agreement(s) && Turn(s, call)
    ensures Answered(s, call)
  {
    var input := s.calls[call].input;
    forall id | Requested(s, id, input)
      ensures KeyOf(input) in s.index && s.index[KeyOf(input)] == id
    {
      assert KeyOf(s.records[id].input) == KeyOf(input);
    }
    if KeyOf(input) in s.index {
      assert Requested(s, s.index[KeyOf(input)], input);
    }
  }

  /** At any moment of any run, a call whose turn has come: a request known for the same branch, space
      and files gets its intent; known otherwise, it is refused; a new one goes on exactly when it is
      small enough. */
  lemma EveryCallIsAnswered(run: seq<State>, events: seq<Event>, n: nat, call: nat)
    requires IsRun(run, events) && n < |run| && Turn(run[n], call)
    ensures Answered(run[n], call)
  {
    AlwaysAgree(run, events, n);
    EnterAnswers(run[n], call);
  }

  // ---------------------------------------------------------------- the checks

  /** The files that count for a run or for a space: those of every intent on record for it. */
  ghost function Counted(records: map<Id, Record>, scope: Scope): set<Claim> {
    set c | c in Claims(records) &&
      match scope
      case RunScope(_, run) => records[c.id].input.run == run
      case SpaceScope(space) => records[c.id].input.space == space
  }

  lemma CountedWith(records: map<Id, Record>, id: Id, record: Record, scope: Scope)
    requires id !in records
    ensures var own := ClaimsOf(id, record.input, |record.input.files|);
      && Counted(records, scope) !! own
      && Counted(records[id := record], scope)
         == Counted(records, scope) + if Counts(record.input, scope) then own else {}
  {
    ClaimsWith(records, id, record);
  }

  /** What the checks count as reserved is exactly the bytes declared by those files. */
  lemma {:induction false} ReservedIsDeclared(records: map<Id, Record>, scope: Scope)
    ensures Reserved(records, scope) == Sum(Counted(records, scope))
    decreases |records|
  {
    if records == map[] {
      assert Counted(records, scope) == {};
    } else {
      var id :| id in records;
      var rest, input := records - {id}, records[id].input;
      var own := ClaimsOf(id, input, |input.files|);
      assert rest[id := records[id]] == records;
      CountedWith(rest, id, records[id], scope);
      ReservedPick(records, id, scope);
      ReservedIsDeclared(rest, scope);
      SumOfInput(id, input, |input.files|);
      assert input.files[..|input.files|] == input.files;
      if Counts(input, scope) {
        SumUnion(Counted(rest, scope), own);
      } else {
        assert Counted(rest, scope) + {} == Counted(rest, scope);
      }
    }
  }

  /** The first check lets a call pass exactly when the bytes found in the run's directory, the bytes
      of all intents of the run in the snapshot, and its own fit under 250 MiB. */
  lemma RunCheckIff(s: State, call: nat, stored: nat)
    requires Enabled(s, WalkedRun(call, stored))
    ensures var c, t := s.calls[call], Next(s, WalkedRun(call, stored));
      var fits := stored + Sum(Counted(c.phase.active, RunScope(c.input.space, c.input.run))) + Total(c.input.files) <= 262_144_000;
      && t.records == s.records && t.index == s.index
      && t.calls[call].phase == if fits then WalkingSpace(c.phase.active) else Done(Rejected(QuotaExceeded))
  {
    var c := s.calls[call];
    ReservedIsDeclared(c.phase.active, RunScope(c.input.space, c.input.run));
  }

  /** The second check, against 2 GiB for the space, decides whether the intent is issued: new, open,
      with nothing uploaded. */
  lemma SpaceCheckIff(s: State, call: nat, stored: nat, id: Id, now: int)
    requires Enabled(s, WalkedSpace(call, stored, id, now))
    ensures var c, t := s.calls[call], Next(s, WalkedSpace(call, stored, id, now));
      var fits := stored + Sum(Counted(c.phase.active, SpaceScope(c.input.space))) + Total(c.input.files) <= 2_147_483_648;
      if fits then
        && t.calls[call].phase == Persisting(id) && id in t.records && t.records == s.records[id := t.records[id]]
        && var r := t.records[id];
           && r.input == c.input && r.progress == Open && r.createdAt == r.updatedAt == now
           && |r.uploaded| == |r.received| == |r.hashes| == |c.input.files|
           && forall k :: 0 <= k < |r.uploaded| ==> !r.uploaded[k] && r.received[k] == 0 && r.hashes[k] == None
      else
        t.calls[call].phase == Done(Rejected(QuotaExceeded)) && t.records == s.records && t.index == s.index
  {
    var c := s.calls[call];
    ReservedIsDeclared(c.phase.active, SpaceScope(c.input.space));
  }

  /** The call ends with the intent once its record is written, and fails otherwise; either way the
      next call in line may go on. */
  lemma SettleDoes(s: State, call: nat, ok: bool)
    requires Enabled(s, Settle(call, ok))
    ensures var t := Next(s, Settle(call, ok));
      && t.calls[call].phase == Done(if ok then Returned(s.calls[call].phase.id) else Failed)
      && t.records == s.records && t.index == s.index && t.disk == s.disk
      && (call + 1 < |t.calls| && t.calls[call + 1].phase.Waiting? ==> Turn(t, call + 1))
  {
  }

  /** A prepare that was admitted in state `s` gets to stage its files exactly when what is found
      afterwards, with the bytes of all intents that were on record then, fits under both ceilings. */
  lemma PrepareCheckIff(s: State, e: Event, t: State, k: nat, runStored: nat, spaceStored: nat)
    requires e.BeginPrepare? && |Next(s, e).prepares| == |s.prepares| + 1
    requires k < |t.prepares| && t.prepares[k] == Next(s, e).prepares[|s.prepares|]
    ensures e.id in s.records && Enabled(t, WalkedPrepare(k, runStored, spaceStored))
    ensures var input, u := s.records[e.id].input, Next(t, WalkedPrepare(k, runStored, spaceStored));
      var fits :=
        && runStored + Sum(Counted(s.records, RunScope(input.space, input.run))) <= 262_144_000
        && spaceStored + Sum(Counted(s.records, SpaceScope(input.space))) <= 2_147_483_648;
      u.prepares == if fits then t.prepares[k := t.prepares[k].(next := Some(0))] else Without(t.prepares, k)
  {
    var input := s.records[e.id].input;
    ReservedIsDeclared(s.records, RunScope(input.space, input.run));
    ReservedIsDeclared(s.records, SpaceScope(input.space));
  }

  // ---------------------------------------------------------------- over every run

  /** A call on its way to a new intent asks for files that are small enough, and so does every
      intent on record. */
  ghost predicate AllSmall(s: State) {
    && (forall k :: 0 <= k < |s.calls| && (s.calls[k].phase.WalkingRun? || s.calls[k].phase.WalkingSpace?) ==>
          SmallEnough(s.calls[k].input))
    && forall id :: id in s.records ==> SmallEnough(s.records[id].input)
  }

  lemma EnterSmall(s: State, call: nat)
    requires call < |s.calls| && AfterEnter(s, call).calls[call].phase.WalkingRun?
    ensures SmallEnough(s.calls[call].input)
  {
  }

  lemma LockedKeepsSmall(s: State, e: Event)
    requires Enabled(s, e) && Locked(e) && AllSmall(s)
    ensures AllSmall(Next(s, e))
  {
    var phase := LockedEffect(s, e);
    match e
    case Enter(call) =>
      if Next(s, e).calls[call].phase.WalkingRun? {
        EnterSmall(s, call);
      }
    case WalkedSpace(call, stored, id, now) => SpaceCheckIff(s, call, stored, id, now);
    case _ =>
  }

  lemma UnlockedKeepsSmall(s: State, e: Event)
    requires Enabled(s, e) && !Locked(e) && AllSmall(s)
    ensures AllSmall(Next(s, e))
  {
    if !e.Remove? && !e.Arrive? {
      UnlockedRewrites(s, e);
    }
  }

  /** In every run, no intent on record asks for more than the two ceilings allow. */
  lemma {:induction false} AlwaysSmall(run: seq<State>, events: seq<Event>, n: nat)
    requires IsRun(run, events) && n < |run|
    ensures AllSmall(run[n])
  {
    if n > 0 {
      AlwaysSmall(run, events, n - 1);
      assert StepAt(run, events, n - 1);
      if Locked(events[n - 1]) {
        LockedKeepsSmall(run[n - 1], events[n - 1]);
      } else {
        UnlockedKeepsSmall(run[n - 1], events[n - 1]);
      }
    }
  }

  /** What a directory walk is assumed to count at least is really there. */
  ghost predicate StillOnDisk(s: State) {
    forall p :: p in s.still ==> p in s.disk && s.disk[p] == s.still[p]
  }

  lemma StepKeepsStill(s: State, e: Event)
    requires Enabled(s, e) && StillOnDisk(s)
    ensures StillOnDisk(Next(s, e))
  {
    match e {
      case Enter(call) => EnterShape(s, call);
      case WalkedSpace(call, stored, id, now) => WalkedSpaceShape(s, call, stored, id, now);
      case BeginPrepare(_, _, _) =>
      case _ =>
    }
  }

  lemma {:induction false} AlwaysOnDisk(run: seq<State>, events: seq<Event>, n: nat)
    requires IsRun(run, events) && n < |run|
    ensures StillOnDisk(run[n])
  {
    if n > 0 {
      AlwaysOnDisk(run, events, n - 1);
      assert StepAt(run, events, n - 1);
      StepKeepsStill(run[n - 1], events[n - 1]);
    }
  }
}
