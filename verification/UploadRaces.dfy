/** Two races of the upload service, as runs from its start.  A prepare goes on staging for an intent
    that was abandoned, into the room that another intent has been given meanwhile; and two accepts
    of one file overlap. */
module UploadRaces {
  import opened Wrappers
  import opened UploadIntents
  import opened UploadQuota
  import opened UploadLifecycle

  const ABANDONED := Input("run", "step", "yes", "space", "actor", "token", "first", [File("slot", "a", "text/plain", 1, "0-a")])
  const ISSUED := Input("run", "step", "yes", "space", "actor", "token", "second", [File("slot", "b", "text/plain", 1, "0-b")])
  const RUN := RunScope("space", "run")
  const SPACE := SpaceScope("space")
  const FILLER := Path("space", "run", "other", "0-c")
  /** A run directory with room for one more byte. */
  const NEARLY_FULL: map<Path, nat> := map[FILLER := MAX_RUN_ARTIFACT_BYTES - 1]
  const HASH: int := 7

  predicate OneByte(input: Input) {
    input == ABANDONED || input == ISSUED
  }

  lemma OneByteTotal(input: Input)
    requires OneByte(input)
    ensures Total(input.files) == 1 && Counts(input, RUN) && Counts(input, SPACE)
  {
    assert input.files[..0] == [];
  }

  lemma StoredOneMore(disk: map<Path, nat>, p: Path, bytes: nat, scope: Scope)
    requires p !in disk && InScope(p, scope)
    ensures Stored(disk[p := bytes], scope) == Stored(disk, scope) + bytes
  {
    StoredPick(disk[p := bytes], p, scope);
    assert disk[p := bytes] - {p} == disk;
  }

  lemma NearlyFull()
    ensures Stored(NEARLY_FULL, RUN) == MAX_RUN_ARTIFACT_BYTES - 1 && Stored(NEARLY_FULL, SPACE) == MAX_RUN_ARTIFACT_BYTES - 1
    ensures forall scope :: Stored(NEARLY_FULL, scope) <= Ceiling(scope)
  {
    forall scope
      ensures Stored(NEARLY_FULL, scope) == if InScope(FILLER, scope) then MAX_RUN_ARTIFACT_BYTES - 1 else 0
    {
      StoredPick(NEARLY_FULL, FILLER, scope);
      assert NEARLY_FULL - {FILLER} == map[];
    }
  }

  lemma ReservedByOne(id: Id, record: Record, scope: Scope)
    requires Counts(record.input, scope)
    ensures Reserved(map[id := record], scope) == Total(record.input.files)
  {
    ReservedPick(map[id := record], id, scope);
    assert map[id := record] - {id} == map[];
  }

  /** One more step of a stretch. */
  lemma Extend(run: seq<State>, events: seq<Event>, e: Event) returns (run': seq<State>, events': seq<Event>)
    requires IsStretch(run, events) && Enabled(run[|events|], e)
    ensures IsStretch(run', events') && run'[0] == run[0] && run'[|events'|] == Next(run[|events|], e)
    ensures |events'| == |events| + 1 && run'[|events|] == run[|events|] && events'[|events|] == e
  {
    var more, es := OneStep(run[|events|], e);
    Chain(run, events, more, es);
    run', events' := run + more[1..], events + es;
  }

  /** Nothing is reserved, and the last call in line is for one byte in the nearly full directory. */
  predicate Ready(s: State, input: Input, id: Id) {
    && OneByte(input) && s.records == map[] && s.accepts == [] && s.disk == NEARLY_FULL && KeyOf(input) !in s.index
    && id !in s.issued && |s.calls| > 0 && s.calls[|s.calls| - 1].input == input && Turn(s, |s.calls| - 1)
  }

  function Issued(s: State, input: Input, id: Id): State
    requires |s.calls| > 0
  {
    WithPhase(s, |s.calls| - 1, Done(Returned(id))).(
      still := s.disk, records := map[id := NewRecord(input, 0)],
      index := s.index[KeyOf(input) := id], issued := s.issued + {id})
  }

  lemma Issue(run: seq<State>, events: seq<Event>, input: Input, id: Id) returns (run': seq<State>, events': seq<Event>)
    requires IsStretch(run, events) && Ready(run[|events|], input, id)
    ensures IsStretch(run', events') && run'[0] == run[0] && run'[|events'|] == Issued(run[|events|], input, id)
  {
    var s := run[|events|];
    var c := |s.calls| - 1;
    OneByteTotal(input);
    NearlyFull();
    var s1 := WithPhase(s, c, WalkingRun(map[])).(still := s.disk);
    var s2 := WithPhase(s1, c, WalkingSpace(map[]));
    var s3 := WithPhase(s2, c, Persisting(id)).(
      records := map[id := NewRecord(input, 0)], index := s.index[KeyOf(input) := id], issued := s.issued + {id});
    assert s1 == AfterEnter(s, c);
    assert s2 == AfterWalkedRun(s1, c, MAX_RUN_ARTIFACT_BYTES - 1);
    SecondCheck(s2, c, input, id);
    run', events' := Extend(run, events, Enter(c));
    run', events' := Extend(run', events', WalkedRun(c, MAX_RUN_ARTIFACT_BYTES - 1));
    run', events' := Extend(run', events', WalkedSpace(c, MAX_RUN_ARTIFACT_BYTES - 1, id, 0));
    run', events' := Extend(run', events', Settle(c, true));
  }

  lemma SecondCheck(s: State, c: nat, input: Input, id: Id)
    requires OneByte(input) && s.records == map[]
    requires c < |s.calls| && s.calls[c].input == input && s.calls[c].phase == WalkingSpace(map[])
    ensures AfterWalkedSpace(s, c, MAX_RUN_ARTIFACT_BYTES - 1, id, 0) ==
      WithPhase(s, c, Persisting(id)).(
        records := map[id := NewRecord(input, 0)], index := s.index[KeyOf(input) := id], issued := s.issued + {id})
  {
    OneByteTotal(input);
  }

  function Uploaded(input: Input): Record {
    Record(input, [true], [1], [Some(HASH)], 0, 0, Open)
  }

  function Preparing(s: State, input: Input, id: Id): State {
    s.(records := map[id := Uploaded(input)], prepares := s.prepares + [Prepare(id, input, 1, 1, Some(0))])
  }

  lemma Upload(run: seq<State>, events: seq<Event>, input: Input, id: Id) returns (run': seq<State>, events': seq<Event>)
    requires IsStretch(run, events) && OneByte(input)
    requires run[|events|].records == map[id := NewRecord(input, 0)] && run[|events|].accepts == []
    ensures IsStretch(run', events') && run'[0] == run[0]
    ensures run'[|events'|] == run[|events|].(records := map[id := Uploaded(input)])
  {
    var s := run[|events|];
    var a := Accept(id, 0, 1, HASH);
    assert AcceptInto(NewRecord(input, 0), a, 0) == Uploaded(input);
    run', events' := Extend(run, events, BeginAccept(id, 0, input.actor, input.token, 1, HASH, 0));
    assert run'[|events'|] == s.(accepts := [a]);
    assert Without([a], 0) == [];
    run', events' := Extend(run', events', CommitAccept(0, 0));
  }

  lemma StartPrepare(run: seq<State>, events: seq<Event>, input: Input, id: Id) returns (run': seq<State>, events': seq<Event>)
    requires IsStretch(run, events) && OneByte(input) && run[|events|].records == map[id := Uploaded(input)]
    ensures IsStretch(run', events') && run'[0] == run[0]
    ensures run'[|events'|] == Preparing(run[|events|], input, id)
  {
    var s := run[|events|];
    var k := |s.prepares|;
    OneByteTotal(input);
    ReservedByOne(id, Uploaded(input), RUN);
    ReservedByOne(id, Uploaded(input), SPACE);
    var s1 := s.(prepares := s.prepares + [Prepare(id, input, 1, 1, None)]);
    run', events' := Extend(run, events, BeginPrepare(id, input, 0));
    assert run'[|events'|] == s1;
    run', events' := Extend(run', events', WalkedPrepare(k, MAX_RUN_ARTIFACT_BYTES - 1, MAX_RUN_ARTIFACT_BYTES - 1));
  }

  /** Issue, upload, and start to prepare. */
  lemma IssueToPrepare(run: seq<State>, events: seq<Event>, input: Input, id: Id) returns (run': seq<State>, events': seq<Event>)
    requires IsStretch(run, events) && Ready(run[|events|], input, id)
    ensures IsStretch(run', events') && run'[0] == run[0]
    ensures run'[|events'|] == Preparing(Issued(run[|events|], input, id), input, id)
  {
    run', events' := Issue(run, events, input, id);
    run', events' := Upload(run', events', input, id);
    run', events' := StartPrepare(run', events', input, id);
  }

  /** The first intent is being prepared when it is abandoned; the second is issued, uploaded and
      prepared meanwhile; then both prepares stage their file. */
  lemma OrphanOversells() returns (run: seq<State>, events: seq<Event>)
    ensures IsRun(run, events)
    ensures Stored(run[|events|].disk, RUN) > Ceiling(RUN)
  {
    run, events := TwoPrepares();
    var s := run[|events|];
    run, events := Extend(run, events, Stage(0));
    run, events := Extend(run, events, Stage(1));
    var first, second := PathOf(ABANDONED, 0), PathOf(ISSUED, 0);
    assert run[|events|].disk == NEARLY_FULL[first := 1][second := 1];
    NearlyFull();
    StoredOneMore(NEARLY_FULL, first, 1, RUN);
    StoredOneMore(NEARLY_FULL[first := 1], second, 1, RUN);
  }

  lemma TwoPrepares() returns (run: seq<State>, events: seq<Event>)
    ensures IsRun(run, events) && run[|events|].disk == NEARLY_FULL
    ensures run[|events|].prepares == [Prepare(0, ABANDONED, 1, 1, Some(0)), Prepare(1, ISSUED, 1, 1, Some(0))]
  {
    run, events := [Start(NEARLY_FULL)], [];
    NearlyFull();
    run, events := Extend(run, events, Arrive(ABANDONED));
    run, events := IssueToPrepare(run, events, ABANDONED, 0);
    run, events := Extend(run, events, Remove(0));
    var s := run[|events|];
    assert s.records == map[] && s.index == map[];
    run, events := Extend(run, events, Arrive(ISSUED));
    run, events := IssueToPrepare(run, events, ISSUED, 1);
  }

  const FIRST_ACCEPT := Accept(0, 0, 1, HASH)
  const SECOND_ACCEPT := Accept(0, 0, 1, HASH + 1)

  lemma TwoAccepts() returns (run: seq<State>, events: seq<Event>)
    ensures IsRun(run, events)
    ensures run[|events|].records == map[0 := NewRecord(ABANDONED, 0)]
    ensures run[|events|].accepts == [FIRST_ACCEPT, SECOND_ACCEPT]
  {
    run, events := [Start(NEARLY_FULL)], [];
    NearlyFull();
    run, events := Extend(run, events, Arrive(ABANDONED));
    run, events := Issue(run, events, ABANDONED, 0);
    run, events := Extend(run, events, BeginAccept(0, 0, ABANDONED.actor, ABANDONED.token, 1, HASH, 0));
    run, events := Extend(run, events, BeginAccept(0, 0, ABANDONED.actor, ABANDONED.token, 1, HASH + 1, 0));
  }

  lemma AcceptsInto(s: State, t: State, input: Input)
    requires OneByte(input) && s.records == map[0 := NewRecord(input, 0)] && s.accepts == [FIRST_ACCEPT, SECOND_ACCEPT]
    requires t == AfterCommitAccept(s, 0, 0)
    ensures t.records == map[0 := Uploaded(input)] && t.accepts == [SECOND_ACCEPT]
    ensures Replaces(t, CommitAccept(0, 0), 0, 0) && !KeepsFile(t, AfterCommitAccept(t, 0, 0), 0, 0)
  {
    assert AcceptInto(NewRecord(input, 0), FIRST_ACCEPT, 0) == Uploaded(input);
    assert Without([FIRST_ACCEPT, SECOND_ACCEPT], 0) == [SECOND_ACCEPT];
    assert AfterCommitAccept(t, 0, 0).records[0].hashes[0] == Some(HASH + 1);
  }

  /** Both accepts pass the checks, since neither has taken effect; the second one to take effect
      replaces the hash of the first. */
  lemma OverlappingAcceptsReplace() returns (run: seq<State>, events: seq<Event>)
    ensures IsRun(run, events) && |events| > 0
    ensures Replaces(run[|events| - 1], events[|events| - 1], 0, 0) && !KeepsFile(run[|events| - 1], run[|events|], 0, 0)
  {
    run, events := TwoAccepts();
    var s := run[|events|];
    run, events := Extend(run, events, CommitAccept(0, 0));
    AcceptsInto(s, run[|events|], ABANDONED);
    run, events := Extend(run, events, CommitAccept(0, 0));
  }
}
