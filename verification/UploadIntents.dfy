/** Upload intents (`packages/hub-daemon/src/upload-intent-service.ts`): the data, and one
    transition for every stretch of code between two awaits.

    Awaited work interleaves freely, so a run is any sequence of these transitions: issue calls
    queue on the promise tail, while accepts, prepares, consumes and abandons take no lock. */
module UploadIntents {
  import opened Wrappers

  type Id = nat

  const LEASE_MS: int := 60 * 60 * 1000
  const MAX_ARTIFACT_FILE_BYTES: nat := 25 * 1024 * 1024
  const MAX_STEP_RESOLUTION_BYTES: nat := 50 * 1024 * 1024
  const MAX_RUN_ARTIFACT_BYTES: nat := 250 * 1024 * 1024
  const MAX_SPACE_ARTIFACT_BYTES: nat := 2 * 1024 * 1024 * 1024

  /** `staged` is the file name the artifact gets in the step's working directory. */
  datatype File = File(slot: string, name: string, mediaType: string, size: nat, staged: string)

  datatype Input = Input(
    run: string, step: string, branch: string, space: string,
    actor: string, token: string, key: string, files: seq<File>)

  datatype Progress = Open | Prepared

  datatype Record = Record(
    input: Input, uploaded: seq<bool>, received: seq<nat>, hashes: seq<Option<int>>,
    createdAt: int, updatedAt: int, progress: Progress)

  datatype IndexKey = IndexKey(actor: string, run: string, step: string, key: string)

  /** A file below a space's runs directory. */
  datatype Path = Path(space: string, run: string, step: string, name: string)

  datatype Code =
    | ReplayMismatch | QuotaExceeded | NotFound | Forbidden | Consumed | Expired
    | FileNotFound | FileReplayMismatch | SizeMismatch | BindingMismatch | Incomplete

  datatype Answer = Returned(id: Id) | Rejected(code: Code) | Failed

  /** How far an issue call has come.  `active` is its snapshot of the records. */
  datatype Phase =
    | Waiting
    | WalkingRun(active: map<Id, Record>)
    | WalkingSpace(active: map<Id, Record>)
    | Persisting(id: Id)
    | Done(answer: Answer)

  datatype Call = Call(input: Input, phase: Phase)

  /** An accept between its checks and its effect. */
  datatype Accept = Accept(id: Id, index: nat, length: nat, hash: int)

  /** A prepare in flight: it keeps the record's immutable data, and stages file after file. */
  datatype Prepare = Prepare(id: Id, input: Input, runReserved: nat, spaceReserved: nat, next: Option<nat>)

  /** `still` holds the files nobody touched since the locked call took its snapshot;
      `issued` every id ever given out; `staged` the files that have been staged. */
  datatype State = State(
    records: map<Id, Record>,
    index: map<IndexKey, Id>,
    disk: map<Path, nat>,
    calls: seq<Call>,
    accepts: seq<Accept>,
    prepares: seq<Prepare>,
    still: map<Path, nat>,
    issued: set<Id>,
    staged: set<(Id, nat)>)

  /** A service that has just started, over whatever its spaces already hold. */
  function Start(disk: map<Path, nat>): State {
    State(map[], map[], disk, [], [], [], map[], {}, {})
  }

  function KeyOf(input: Input): IndexKey {
    IndexKey(input.actor, input.run, input.step, input.key)
  }

  function PathOf(input: Input, index: nat): Path
    requires index < |input.files|
  {
    Path(input.space, input.run, input.step, input.files[index].staged)
  }

  function Total(files: seq<File>): nat {
    if files == [] then 0 else Total(files[..|files| - 1]) + files[|files| - 1].size
  }

  predicate SomeFileTooBig(files: seq<File>) {
    exists k | 0 <= k < |files| :: files[k].size > MAX_ARTIFACT_FILE_BYTES
  }

  function NewRecord(input: Input, now: int): Record {
    Record(input, seq(|input.files|, _ => false), seq(|input.files|, _ => 0), seq(|input.files|, _ => None), now, now, Open)
  }

  predicate SameBinding(record: Record, input: Input) {
    record.input.branch == input.branch && record.input.space == input.space && record.input.files == input.files
  }

  predicate IsExpired(record: Record, now: int) {
    now - record.updatedAt >= LEASE_MS
  }

  // ---------------------------------------------------------------- sums

  /** Which records a ceiling counts. */
  datatype Scope = RunScope(space: string, run: string) | SpaceScope(space: string)

  predicate InScope(p: Path, scope: Scope) {
    match scope
    case RunScope(space, run) => p.space == space && p.run == run
    case SpaceScope(space) => p.space == space
  }

  predicate Counts(input: Input, scope: Scope) {
    match scope
    case RunScope(_, run) => input.run == run
    case SpaceScope(space) => input.space == space
  }

  /** Whether the intent's files are staged into the directory of the scope. */
  predicate Within(input: Input, scope: Scope) {
    match scope
    case RunScope(space, run) => input.space == space && input.run == run
    case SpaceScope(space) => input.space == space
  }

  function Ceiling(scope: Scope): nat {
    match scope
    case RunScope(_, _) => MAX_RUN_ARTIFACT_BYTES
    case SpaceScope(_) => MAX_SPACE_ARTIFACT_BYTES
  }

  /** Declared bytes of all counted records, whatever their progress. */
  ghost function Reserved(records: map<Id, Record>, scope: Scope): nat
    decreases |records|
  {
    if records == map[] then 0
    else
      var id :| id in records;
      (if Counts(records[id].input, scope) then Total(records[id].input.files) else 0)
        + Reserved(records - {id}, scope)
  }

  /** Bytes of the files in a directory. */
  ghost function Stored(disk: map<Path, nat>, scope: Scope): nat
    decreases |disk|
  {
    if disk == map[] then 0
    else
      var p :| p in disk;
      (if InScope(p, scope) then disk[p] else 0) + Stored(disk - {p}, scope)
  }

  // ---------------------------------------------------------------- transitions

  datatype Event =
    | Arrive(input: Input)
    | Enter(call: nat)
    | WalkedRun(call: nat, stored: nat)
    | WalkedSpace(call: nat, stored: nat, id: Id, now: int)
    | Settle(call: nat, ok: bool)
    | BeginAccept(id: Id, index: nat, actor: string, token: string, length: nat, hash: int, now: int)
    | CommitAccept(accept: nat, now: int)
    | BeginPrepare(id: Id, input: Input, now: int)
    | WalkedPrepare(prepare: nat, runStored: nat, spaceStored: nat)
    | Stage(prepare: nat)
    | FinishPrepare(prepare: nat, now: int)
    | DropPrepare(prepare: nat)
    | Unlink(path: Path)
    | Remove(id: Id)

  /** The promise a call awaits is the one of the call before it. */
  predicate Turn(s: State, call: nat) {
    && call < |s.calls| && s.calls[call].phase.Waiting?
    && (call > 0 ==> s.calls[call - 1].phase.Done?)
  }

  function WithPhase(s: State, call: nat, phase: Phase): State
    requires call < |s.calls|
  {
    s.(calls := s.calls[call := s.calls[call].(phase := phase)])
  }

  /** Which transitions can happen.  A directory walk counts at least the files that stay put
      while it runs; ids are fresh. */
  ghost predicate Enabled(s: State, e: Event) {
    match e
    case Arrive(_) => true
    case Enter(call) => Turn(s, call)
    case WalkedRun(call, stored) =>
      && call < |s.calls| && s.calls[call].phase.WalkingRun?
      && stored >= Stored(s.still, RunScope(s.calls[call].input.space, s.calls[call].input.run))
    case WalkedSpace(call, stored, id, _) =>
      && call < |s.calls| && s.calls[call].phase.WalkingSpace?
      && stored >= Stored(s.still, SpaceScope(s.calls[call].input.space))
      && id !in s.issued
    case Settle(call, ok) =>
      && call < |s.calls| && !s.calls[call].phase.Waiting? && !s.calls[call].phase.Done?
      && (ok ==> s.calls[call].phase.Persisting?)
    case BeginAccept(_, _, _, _, _, _, _) => true
    case CommitAccept(accept, _) => accept < |s.accepts|
    case BeginPrepare(_, _, _) => true
    case WalkedPrepare(prepare, _, _) => prepare < |s.prepares| && s.prepares[prepare].next.None?
    case Stage(prepare) =>
      && prepare < |s.prepares| && s.prepares[prepare].next.Some?
      && s.prepares[prepare].next.value < |s.prepares[prepare].input.files|
    case FinishPrepare(prepare, _) =>
      && prepare < |s.prepares| && s.prepares[prepare].next.Some?
      && s.prepares[prepare].next.value >= |s.prepares[prepare].input.files|
    case DropPrepare(prepare) => prepare < |s.prepares|
    case Unlink(_) => true
    case Remove(_) => true
  }

  ghost function Next(s: State, e: Event): State
    requires Enabled(s, e)
  {
    match e
    case Arrive(input) => s.(calls := s.calls + [Call(input, Waiting)])
    case Enter(call) => AfterEnter(s, call)
    case WalkedRun(call, stored) => AfterWalkedRun(s, call, stored)
    case WalkedSpace(call, stored, id, now) => AfterWalkedSpace(s, call, stored, id, now)
    case Settle(call, ok) =>
      WithPhase(s, call, Done(if ok then Returned(s.calls[call].phase.id) else Failed))
    case BeginAccept(id, index, actor, token, length, hash, now) =>
      AfterBeginAccept(s, id, index, actor, token, length, hash, now)
    case CommitAccept(accept, now) => AfterCommitAccept(s, accept, now)
    case BeginPrepare(id, input, now) => AfterBeginPrepare(s, id, input, now)
    case WalkedPrepare(prepare, runStored, spaceStored) => AfterWalkedPrepare(s, prepare, runStored, spaceStored)
    case Stage(prepare) => AfterStage(s, prepare)
    case FinishPrepare(prepare, now) => AfterFinishPrepare(s, prepare, now)
    case DropPrepare(prepare) => s.(prepares := Without(s.prepares, prepare))
    case Unlink(path) => s.(disk := s.disk - {path}, still := s.still - {path})
    case Remove(id) => AfterRemove(s, id)
  }

  function Without<T>(xs: seq<T>, k: nat): seq<T>
    requires k < |xs|
  {
    xs[..k] + xs[k + 1..]
  }

  function AfterEnter(s: State, call: nat): State
    requires call < |s.calls|
  {
    var input := s.calls[call].input;
    var key := KeyOf(input);
    if key in s.index then
      var id := s.index[key];
      WithPhase(s, call, Done(
        if id in s.records && SameBinding(s.records[id], input) then Returned(id) else Rejected(ReplayMismatch)))
    else if SomeFileTooBig(input.files) || Total(input.files) > MAX_STEP_RESOLUTION_BYTES then
      WithPhase(s, call, Done(Rejected(QuotaExceeded)))
    else
      WithPhase(s, call, WalkingRun(s.records)).(still := s.disk)
  }

  ghost function AfterWalkedRun(s: State, call: nat, stored: nat): State
    requires call < |s.calls| && s.calls[call].phase.WalkingRun?
  {
    var c := s.calls[call];
    var scope := RunScope(c.input.space, c.input.run);
    if stored + Reserved(c.phase.active, scope) + Total(c.input.files) > Ceiling(scope)
    then WithPhase(s, call, Done(Rejected(QuotaExceeded)))
    else WithPhase(s, call, WalkingSpace(c.phase.active))
  }

  ghost function AfterWalkedSpace(s: State, call: nat, stored: nat, id: Id, now: int): State
    requires call < |s.calls| && s.calls[call].phase.WalkingSpace?
  {
    var c := s.calls[call];
    var scope := SpaceScope(c.input.space);
    if stored + Reserved(c.phase.active, scope) + Total(c.input.files) > Ceiling(scope)
    then WithPhase(s, call, Done(Rejected(QuotaExceeded)))
    else
      WithPhase(s, call, Persisting(id)).(
        records := s.records[id := NewRecord(c.input, now)],
        index := s.index[KeyOf(c.input) := id],
        issued := s.issued + {id})
  }

  /** The record, provided it exists, belongs to the caller, is open, and its lease runs. */
  function RequireOpen(records: map<Id, Record>, id: Id, actor: string, token: string, now: int): Result<Record, Code> {
    if id !in records then Err(NotFound)
    else
      var r := records[id];
      if r.input.actor != actor || r.input.token != token then Err(Forbidden)
      else if r.progress != Open then Err(Consumed)
      else if IsExpired(r, now) then Err(Expired)
      else Ok(r)
  }

  /** Why an accept is refused before any effect; `None` when the bytes will be taken (or are the
      ones already taken). */
  function AcceptRefusal(records: map<Id, Record>, id: Id, index: nat, actor: string, token: string,
                         length: nat, hash: int, now: int): Option<Code>
  {
    match RequireOpen(records, id, actor, token, now)
    case Err(code) => Some(code)
    case Ok(r) =>
      if index >= |r.input.files| then Some(FileNotFound)
      else if index < |r.uploaded| && r.uploaded[index] then
        if index < |r.hashes| && index < |r.received| && r.hashes[index] == Some(hash) && r.received[index] == length
        then None else Some(FileReplayMismatch)
      else if length != r.input.files[index].size then Some(SizeMismatch)
      else None
  }

  function AfterBeginAccept(s: State, id: Id, index: nat, actor: string, token: string,
                            length: nat, hash: int, now: int): State
  {
    if AcceptRefusal(s.records, id, index, actor, token, length, hash, now).Some? then s
    else
      var r := s.records[id];
      if index < |r.uploaded| && r.uploaded[index]
      then s.(records := s.records[id := r.(updatedAt := now)])
      else s.(accepts := s.accepts + [Accept(id, index, length, hash)])
  }

  function AcceptInto(r: Record, a: Accept, now: int): Record {
    if a.index < |r.uploaded| && a.index < |r.received| && a.index < |r.hashes| then
      r.(uploaded := r.uploaded[a.index := true],
         received := r.received[a.index := a.length],
         hashes := r.hashes[a.index := Some(a.hash)],
         updatedAt := now)
    else r
  }

  /** The effect of an accept whose bytes are on disk; a record removed meanwhile is not seen. */
  function AfterCommitAccept(s: State, accept: nat, now: int): State
    requires accept < |s.accepts|
  {
    var a := s.accepts[accept];
    var rest := s.(accepts := Without(s.accepts, accept));
    if a.id in s.records
    then rest.(records := s.records[a.id := AcceptInto(s.records[a.id], a, now)])
    else rest
  }

  function PrepareRefusal(records: map<Id, Record>, id: Id, input: Input, now: int): Option<Code> {
    match RequireOpen(records, id, input.actor, input.token, now)
    case Err(code) => Some(code)
    case Ok(r) =>
      if r.input.run != input.run || r.input.step != input.step || r.input.branch != input.branch || r.input.key != input.key
      then Some(BindingMismatch)
      else if false in r.uploaded then Some(Incomplete)
      else None
  }

  ghost function AfterBeginPrepare(s: State, id: Id, input: Input, now: int): State {
    if PrepareRefusal(s.records, id, input, now).Some? then s
    else
      var r := s.records[id].input;
      s.(prepares := s.prepares +
        [Prepare(id, r, Reserved(s.records, RunScope(r.space, r.run)), Reserved(s.records, SpaceScope(r.space)), None)])
  }

  function AfterWalkedPrepare(s: State, prepare: nat, runStored: nat, spaceStored: nat): State
    requires prepare < |s.prepares|
  {
    var p := s.prepares[prepare];
    if runStored + p.runReserved > MAX_RUN_ARTIFACT_BYTES || spaceStored + p.spaceReserved > MAX_SPACE_ARTIFACT_BYTES
    then s.(prepares := Without(s.prepares, prepare))
    else s.(prepares := s.prepares[prepare := p.(next := Some(0))])
  }

  /** One file is written into the step's working directory.  Its length is its declared size:
      nothing else was ever accepted. */
  function AfterStage(s: State, prepare: nat): State
    requires prepare < |s.prepares| && s.prepares[prepare].next.Some?
    requires s.prepares[prepare].next.value < |s.prepares[prepare].input.files|
  {
    var p := s.prepares[prepare];
    var path := PathOf(p.input, p.next.value);
    s.(disk := s.disk[path := p.input.files[p.next.value].size],
       still := s.still - {path},
       staged := s.staged + {(p.id, p.next.value)},
       prepares := s.prepares[prepare := p.(next := Some(p.next.value + 1))])
  }

  function AfterFinishPrepare(s: State, prepare: nat, now: int): State
    requires prepare < |s.prepares|
  {
    var p := s.prepares[prepare];
    var rest := s.(prepares := Without(s.prepares, prepare));
    if p.id in s.records
    then rest.(records := s.records[p.id := s.records[p.id].(progress := Prepared, updatedAt := now)])
    else rest
  }

  /** The synchronous part of `remove`, which `consume` and `abandon` end with. */
  function AfterRemove(s: State, id: Id): State {
    if id in s.records
    then s.(index := s.index - {KeyOf(s.records[id].input)}, records := s.records - {id})
    else s
  }

  // ---------------------------------------------------------------- what unlocked steps leave alone

  predicate Locked(e: Event) {
    e.Enter? || e.WalkedRun? || e.WalkedSpace? || e.Settle?
  }

  /** Records keep what they were issued for, and never go back from prepared to open. */
  ghost predicate Rewritten(s: State, s': State) {
    && s'.records.Keys == s.records.Keys && s'.index == s.index && s'.issued == s.issued && s'.calls == s.calls
    && forall id :: id in s.records ==>
         && s'.records[id].input == s.records[id].input
         && (s.records[id].progress == Prepared ==> s'.records[id].progress == Prepared)
  }

  lemma RewriteOne(s: State, s': State, id: Id)
    requires s'.index == s.index && s'.issued == s.issued && s'.calls == s.calls && id in s.records
    requires id in s'.records && s'.records == s.records[id := s'.records[id]]
    requires s'.records[id].input == s.records[id].input
    requires s.records[id].progress == Prepared ==> s'.records[id].progress == Prepared
    ensures Rewritten(s, s')
  {
  }

  lemma BeginAcceptRewrites(s: State, id: Id, index: nat, actor: string, token: string, length: nat, hash: int, now: int)
    ensures Rewritten(s, AfterBeginAccept(s, id, index, actor, token, length, hash, now))
  {
    var s' := AfterBeginAccept(s, id, index, actor, token, length, hash, now);
    if s'.records != s.records {
      RewriteOne(s, s', id);
    }
  }

  lemma CommitAcceptRewrites(s: State, accept: nat, now: int)
    requires accept < |s.accepts|
    ensures Rewritten(s, AfterCommitAccept(s, accept, now))
  {
    var a := s.accepts[accept];
    if a.id in s.records {
      RewriteOne(s, AfterCommitAccept(s, accept, now), a.id);
    }
  }

  lemma FinishPrepareRewrites(s: State, prepare: nat, now: int)
    requires prepare < |s.prepares|
    ensures Rewritten(s, AfterFinishPrepare(s, prepare, now))
  {
    var p := s.prepares[prepare];
    if p.id in s.records {
      RewriteOne(s, AfterFinishPrepare(s, prepare, now), p.id);
    }
  }

  lemma SameRecordsRewritten(s: State, s': State)
    requires s'.records == s.records && s'.index == s.index && s'.issued == s.issued && s'.calls == s.calls
    ensures Rewritten(s, s')
  {
  }

  lemma UnlockedRewrites(s: State, e: Event)
    requires Enabled(s, e) && !Locked(e) && !e.Remove? && !e.Arrive?
    ensures Rewritten(s, Next(s, e))
  {
    match e
    case BeginAccept(id, index, actor, token, length, hash, now) =>
      BeginAcceptRewrites(s, id, index, actor, token, length, hash, now);
    case CommitAccept(accept, now) => CommitAcceptRewrites(s, accept, now);
    case FinishPrepare(prepare, now) => FinishPrepareRewrites(s, prepare, now);
    case BeginPrepare(id, input, now) => SameRecordsRewritten(s, AfterBeginPrepare(s, id, input, now));
    case WalkedPrepare(prepare, runStored, spaceStored) =>
      SameRecordsRewritten(s, AfterWalkedPrepare(s, prepare, runStored, spaceStored));
    case Stage(prepare) => SameRecordsRewritten(s, AfterStage(s, prepare));
    case DropPrepare(prepare) => SameRecordsRewritten(s, s.(prepares := Without(s.prepares, prepare)));
    case Unlink(path) => SameRecordsRewritten(s, s.(disk := s.disk - {path}, still := s.still - {path}));
  }

  /** The call alone changes its phase. */
  ghost predicate MovesCall(s: State, s': State, call: nat, phase: Phase)
    requires call < |s.calls|
  {
    !phase.Waiting? && s'.calls == s.calls[call := s.calls[call].(phase := phase)]
  }

  ghost predicate SameBooks(s: State, s': State) {
    s'.records == s.records && s'.index == s.index && s'.issued == s.issued
  }

  lemma EnterMoves(s: State, call: nat) returns (phase: Phase)
    requires call < |s.calls|
    ensures MovesCall(s, AfterEnter(s, call), call, phase) && SameBooks(s, AfterEnter(s, call))
  {
    phase := AfterEnter(s, call).calls[call].phase;
  }

  lemma WalkedRunMoves(s: State, call: nat, stored: nat) returns (phase: Phase)
    requires call < |s.calls| && s.calls[call].phase.WalkingRun?
    ensures MovesCall(s, AfterWalkedRun(s, call, stored), call, phase) && SameBooks(s, AfterWalkedRun(s, call, stored))
  {
    phase := AfterWalkedRun(s, call, stored).calls[call].phase;
  }

  lemma WalkedSpaceMoves(s: State, call: nat, stored: nat, id: Id, now: int) returns (phase: Phase)
    requires call < |s.calls| && s.calls[call].phase.WalkingSpace?
    ensures MovesCall(s, AfterWalkedSpace(s, call, stored, id, now), call, phase)
  {
    phase := AfterWalkedSpace(s, call, stored, id, now).calls[call].phase;
  }

  /** A locked step changes the phase of its call, and the records only when it commits. */
  lemma LockedEffect(s: State, e: Event) returns (phase: Phase)
    requires Enabled(s, e) && Locked(e)
    ensures !phase.Waiting? && e.call < |s.calls|
    ensures Next(s, e).calls == s.calls[e.call := s.calls[e.call].(phase := phase)]
    ensures e.WalkedSpace? || (Next(s, e).records == s.records && Next(s, e).index == s.index && Next(s, e).issued == s.issued)
  {
    match e {
      case Enter(call) => phase := EnterMoves(s, call);
      case WalkedRun(call, stored) => phase := WalkedRunMoves(s, call, stored);
      case WalkedSpace(call, stored, id, now) => phase := WalkedSpaceMoves(s, call, stored, id, now);
      case Settle(call, ok) => phase := Done(if ok then Returned(s.calls[call].phase.id) else Failed);
    }
  }

  // ---------------------------------------------------------------- runs

  ghost predicate StepAt(run: seq<State>, events: seq<Event>, k: nat)
    requires k < |events| && k + 1 < |run|
  {
    Enabled(run[k], events[k]) && run[k + 1] == Next(run[k], events[k])
  }

  ghost predicate IsStretch(run: seq<State>, events: seq<Event>) {
    |run| == |events| + 1 && forall k :: 0 <= k < |events| ==> StepAt(run, events, k)
  }

  ghost predicate IsRun(run: seq<State>, events: seq<Event>) {
    && IsStretch(run, events)
    && run[0] == Start(run[0].disk)
    && forall scope :: Stored(run[0].disk, scope) <= Ceiling(scope)
  }

  lemma OneStep(s: State, e: Event) returns (run: seq<State>, events: seq<Event>)
    requires Enabled(s, e)
    ensures IsStretch(run, events) && run == [s, Next(s, e)] && events == [e]
  {
    run, events := [s, Next(s, e)], [e];
    assert StepAt(run, events, 0);
  }

  lemma Chain(run: seq<State>, events: seq<Event>, run': seq<State>, events': seq<Event>)
    requires IsStretch(run, events) && IsStretch(run', events') && run[|run| - 1] == run'[0]
    ensures IsStretch(run + run'[1..], events + events')
  {
    var all, es := run + run'[1..], events + events';
    forall k | 0 <= k < |es|
      ensures StepAt(all, es, k)
    {
      if k < |events| {
        assert StepAt(run, events, k);
      } else {
        assert StepAt(run', events', k - |events|);
        assert all[k] == run'[k - |events|];
      }
    }
  }
}
