/** The upload intents' idempotency index, their life cycle and their accepted files. */
module UploadLifecycle {
  import opened Wrappers
  import opened UploadIntents
  import opened UploadQuota

  // ---------------------------------------------------------------- the idempotency index

  /** Records and index keys correspond one to one. */
  ghost predicate Agreement(s: State) {
    && (forall id :: id in s.records ==>
          KeyOf(s.records[id].input) in s.index && s.index[KeyOf(s.records[id].input)] == id)
    && (forall key :: key in s.index ==>
          s.index[key] in s.records && KeyOf(s.records[s.index[key]].input) == key)
  }

  /** The call that passed the replay check is the only one that may use its key. */
  ghost predicate KeyStillFree(s: State, c: Call) {
    c.phase.WalkingRun? || c.phase.WalkingSpace? ==> KeyOf(c.input) !in s.index
  }

  ghost predicate IndexInvariant(s: State) {
    && Agreement(s) && OneAtATime(s) && (forall id :: id in s.records ==> id in s.issued)
    && forall k :: 0 <= k < |s.calls| ==> KeyStillFree(s, s.calls[k])
  }

  lemma RewritingKeepsAgreement(s: State, s': State)
    requires Agreement(s) && Rewritten(s, s')
    ensures Agreement(s')
  {
  }

  lemma RemoveKeepsAgreement(s: State, id: Id)
    requires Agreement(s)
    ensures Agreement(AfterRemove(s, id)) && AfterRemove(s, id).index.Keys <= s.index.Keys
  {
  }

  lemma CommitKeepsAgreement(s: State, s': State, id: Id, record: Record)
    requires Agreement(s) && id !in s.records && KeyOf(record.input) !in s.index
    requires s'.records == s.records[id := record] && s'.index == s.index[KeyOf(record.input) := id]
    ensures Agreement(s')
  {
  }

  lemma EnterFreesKey(s: State, call: nat)
    requires call < |s.calls|
    ensures KeyStillFree(AfterEnter(s, call), AfterEnter(s, call).calls[call])
  {
  }

  /** A commit adds one record under a fresh id and its free key; other steps of a locked call add nothing. */
  lemma WalkedSpaceCommits(s: State, call: nat, stored: nat, id: Id, now: int)
    requires IndexInvariant(s) && Enabled(s, WalkedSpace(call, stored, id, now))
    ensures var s' := AfterWalkedSpace(s, call, stored, id, now);
      && Agreement(s') && (forall k :: k in s'.records ==> k in s'.issued) && KeyStillFree(s', s'.calls[call])
  {
    var s' := AfterWalkedSpace(s, call, stored, id, now);
    var c := s.calls[call];
    assert KeyStillFree(s, c);
    if s'.calls[call].phase.Persisting? {
      CommitKeepsAgreement(s, s', id, NewRecord(c.input, now));
    }
  }

  lemma OthersKeepKeysFree(s: State, s': State, call: nat, phase: Phase)
    requires IndexInvariant(s) && call < |s.calls|
    requires (!s.calls[call].phase.Waiting? && !s.calls[call].phase.Done?) || Turn(s, call)
    requires s'.calls == s.calls[call := s.calls[call].(phase := phase)]
    requires KeyStillFree(s', s'.calls[call])
    ensures forall k :: 0 <= k < |s'.calls| ==> KeyStillFree(s', s'.calls[k])
  {
    forall k | 0 <= k < |s'.calls|
      ensures KeyStillFree(s', s'.calls[k])
    {
      if k != call {
        OthersIdle(s, call, k);
      }
    }
  }

  lemma LockedKeepsIndexInvariant(s: State, e: Event)
    requires IndexInvariant(s) && Enabled(s, e) && Locked(e)
    ensures IndexInvariant(Next(s, e))
  {
    var s' := Next(s, e);
    var phase := LockedEffect(s, e);
    LockedKeepsOrder(s, s', e.call, phase);
    match e {
      case Enter(call) => EnterFreesKey(s, call);
      case WalkedRun(call, stored) => assert KeyStillFree(s, s.calls[call]);
      case WalkedSpace(call, stored, id, now) => WalkedSpaceCommits(s, call, stored, id, now);
      case Settle(call, ok) =>
    }
    OthersKeepKeysFree(s, s', e.call, phase);
  }

  lemma UnlockedKeepsIndexInvariant(s: State, e: Event)
    requires IndexInvariant(s) && Enabled(s, e) && !Locked(e)
    ensures IndexInvariant(Next(s, e))
  {
    var s' := Next(s, e);
    if e.Remove? {
      RemoveKeepsAgreement(s, e.id);
      assert forall k :: 0 <= k < |s.calls| ==> KeyStillFree(s, s.calls[k]) ==> KeyStillFree(s', s.calls[k]);
    } else if e.Arrive? {
    } else {
      UnlockedRewrites(s, e);
      RewritingKeepsAgreement(s, s');
      assert forall k :: 0 <= k < |s.calls| ==> KeyStillFree(s, s.calls[k]) ==> KeyStillFree(s', s.calls[k]);
    }
  }

  /** In every run, records and idempotency keys stay in one-to-one agreement. */
  lemma {:induction false} AlwaysAgree(run: seq<State>, events: seq<Event>, n: nat)
    requires IsRun(run, events) && n < |run|
    ensures IndexInvariant(run[n])
  {
    if n > 0 {
      AlwaysAgree(run, events, n - 1);
      assert StepAt(run, events, n - 1);
      if Locked(events[n - 1]) {
        LockedKeepsIndexInvariant(run[n - 1], events[n - 1]);
      } else {
        UnlockedKeepsIndexInvariant(run[n - 1], events[n - 1]);
      }
    }
  }

  /** Issuing again what an intent on record was issued for returns that intent and reserves nothing. */
  lemma ReissueReturnsSame(run: seq<State>, events: seq<Event>, n: nat, call: nat, id: Id)
    requires IsRun(run, events) && n < |run| && Turn(run[n], call)
    requires id in run[n].records && run[n].calls[call].input == run[n].records[id].input
    ensures var s, s' := run[n], AfterEnter(run[n], call);
      && s'.calls[call].phase == Done(Returned(id))
      && s'.records == s.records && s'.index == s.index && s'.disk == s.disk
  {
    AlwaysAgree(run, events, n);
  }

  // ---------------------------------------------------------------- open, prepared, removed

  ghost predicate Gone(s: State, id: Id) {
    id in s.issued && id !in s.records
  }

  /** From `s` to `s'` the intent has been removed for good, or moved only forward. */
  ghost predicate Forward(s: State, s': State, id: Id) {
    || Gone(s', id)
    || (&& id in s.records && id in s'.records && id in s'.issued
        && s'.records[id].input == s.records[id].input
        && (s.records[id].progress == Prepared ==> s'.records[id].progress == Prepared))
  }

  lemma StepMovesForward(s: State, e: Event, id: Id)
    requires Enabled(s, e) && id in s.issued
    ensures id in s.records ==> Forward(s, Next(s, e), id)
    ensures Gone(s, id) ==> Gone(Next(s, e), id)
  {
    if Locked(e) {
      var phase := LockedEffect(s, e);
      if e.WalkedSpace? {
        assert e.id !in s.issued;
      }
    } else if !e.Remove? && !e.Arrive? {
      UnlockedRewrites(s, e);
    }
  }

  lemma ForwardComposes(s: State, e: Event, start: State, id: Id)
    requires Enabled(s, e) && Forward(start, s, id)
    ensures Forward(start, Next(s, e), id)
  {
    StepMovesForward(s, e, id);
  }

  lemma RecordsAreIssued(run: seq<State>, events: seq<Event>, n: nat, id: Id)
    requires IsRun(run, events) && n < |run| && id in run[n].records
    ensures id in run[n].issued
  {
    AlwaysAgree(run, events, n);
  }

  /** Over any stretch of a run an intent moves only from open to prepared to removed, and keeps
      what it was issued for. */
  lemma {:induction false} OnlyForward(run: seq<State>, events: seq<Event>, m: nat, n: nat, id: Id)
    requires IsRun(run, events) && m <= n < |run| && id in run[m].records
    ensures Forward(run[m], run[n], id)
    decreases n
  {
    if m == n {
      RecordsAreIssued(run, events, m, id);
    } else {
      OnlyForward(run, events, m, n - 1, id);
      assert StepAt(run, events, n - 1);
      ForwardComposes(run[n - 1], events[n - 1], run[m], id);
    }
  }

  // ---------------------------------------------------------------- accepted files

  /** What an intent has accepted is what it declared, file by file. */
  ghost predicate Sound(r: Record) {
    && |r.uploaded| == |r.received| == |r.hashes| == |r.input.files|
    && forall k :: 0 <= k < |r.uploaded| && r.uploaded[k] ==>
         r.received[k] == r.input.files[k].size && r.hashes[k].Some?
  }

  ghost predicate AcceptTraces(s: State, a: Accept) {
    && a.id in s.issued
    && (a.id in s.records ==>
          a.index < |s.records[a.id].input.files| && a.length == s.records[a.id].input.files[a.index].size)
  }

  ghost predicate AcceptsInvariant(s: State) {
    && (forall id :: id in s.records ==> id in s.issued && Sound(s.records[id]))
    && forall k :: 0 <= k < |s.accepts| ==> AcceptTraces(s, s.accepts[k])
  }

  /** An accept takes effect on file `k` of the intent after that file has been accepted with another
      hash: two accepts of the file overlapped, with different bytes. */
  ghost predicate Replaces(s: State, e: Event, id: Id, k: nat) {
    && e.CommitAccept? && e.accept < |s.accepts|
    && var a := s.accepts[e.accept];
       && a.id == id && a.index == k && id in s.records
       && k < |s.records[id].uploaded| && s.records[id].uploaded[k]
       && k < |s.records[id].hashes| && s.records[id].hashes[k] != Some(a.hash)
  }

  /** File `k` of the intent, once accepted, is still accepted with the same hash and size. */
  ghost predicate KeepsFile(s: State, s': State, id: Id, k: nat) {
    && id in s.records && id in s'.records
    && k < |s.records[id].uploaded| && k < |s'.records[id].uploaded|
    && k < |s.records[id].hashes| && k < |s'.records[id].hashes|
    && k < |s.records[id].received| && k < |s'.records[id].received|
    && (s.records[id].uploaded[k] ==>
          && s'.records[id].uploaded[k]
          && s'.records[id].hashes[k] == s.records[id].hashes[k]
          && s'.records[id].received[k] == s.records[id].received[k])
  }

  lemma AcceptIntoSound(r: Record, a: Accept, now: int)
    requires Sound(r) && a.index < |r.input.files| && a.length == r.input.files[a.index].size
    ensures Sound(AcceptInto(r, a, now))
  {
  }

  lemma CommitAcceptStaysSound(s: State, accept: nat, now: int)
    requires AcceptsInvariant(s) && accept < |s.accepts|
    ensures AcceptsInvariant(AfterCommitAccept(s, accept, now))
  {
    var a := s.accepts[accept];
    var s' := AfterCommitAccept(s, accept, now);
    assert AcceptTraces(s, a);
    assert forall k :: 0 <= k < |s'.accepts| ==> s'.accepts[k] == s.accepts[if k < accept then k else k + 1];
    if a.id in s.records {
      AcceptIntoSound(s.records[a.id], a, now);
    }
  }

  /** An accept that takes effect keeps every file but the one it replaces. */
  lemma CommitAcceptKeeps(s: State, accept: nat, now: int, id: Id, k: nat)
    requires AcceptsInvariant(s) && accept < |s.accepts| && id in s.records && k < |s.records[id].input.files|
    ensures KeepsFile(s, AfterCommitAccept(s, accept, now), id, k) <==> !Replaces(s, CommitAccept(accept, now), id, k)
  {
    var a := s.accepts[accept];
    assert AcceptTraces(s, a) && Sound(s.records[id]);
    if a.id in s.records {
      AcceptIntoSound(s.records[a.id], a, now);
    }
  }

  /** Steps that touch no accepted file. */
  ghost predicate SameUploads(s: State, s': State) {
    && s'.accepts == s.accepts && s.issued <= s'.issued
    && (forall id :: id in s'.records ==>
          || (id in s.records && s'.records[id].input == s.records[id].input
              && s'.records[id].uploaded == s.records[id].uploaded
              && s'.records[id].hashes == s.records[id].hashes
              && s'.records[id].received == s.records[id].received)
          || (id !in s.issued && id in s'.issued && exists input, now :: s'.records[id] == NewRecord(input, now)))
  }

  lemma SameUploadsKeeps(s: State, s': State)
    requires AcceptsInvariant(s) && SameUploads(s, s')
    ensures AcceptsInvariant(s')
    ensures forall i, k: nat :: i in s.records && i in s'.records && k < |s.records[i].input.files| ==> KeepsFile(s, s', i, k)
  {
    forall id | id in s'.records
      ensures id in s'.issued && Sound(s'.records[id])
    {
      if id in s.records {
        assert Sound(s.records[id]);
      }
    }
    forall k | 0 <= k < |s'.accepts|
      ensures AcceptTraces(s', s'.accepts[k])
    {
      assert AcceptTraces(s, s.accepts[k]);
    }
  }

  lemma AdmittedAccept(s: State, id: Id, index: nat, actor: string, token: string, length: nat, hash: int, now: int)
    requires AcceptRefusal(s.records, id, index, actor, token, length, hash, now).None?
    ensures id in s.records && index < |s.records[id].input.files|
    ensures (index < |s.records[id].uploaded| && s.records[id].uploaded[index])
      || length == s.records[id].input.files[index].size
  {
  }

  lemma BeginAcceptShape(s: State, id: Id, index: nat, actor: string, token: string, length: nat, hash: int, now: int)
    requires AcceptsInvariant(s)
    ensures var s' := AfterBeginAccept(s, id, index, actor, token, length, hash, now);
      || SameUploads(s, s')
      || (&& AcceptTraces(s, Accept(id, index, length, hash))
          && s' == s.(accepts := s.accepts + [Accept(id, index, length, hash)]))
  {
    if AcceptRefusal(s.records, id, index, actor, token, length, hash, now).None? {
      AdmittedAccept(s, id, index, actor, token, length, hash, now);
    }
  }

  lemma BeginAcceptKeeps(s: State, e: Event)
    requires AcceptsInvariant(s) && e.BeginAccept?
    ensures var s' := Next(s, e);
      && AcceptsInvariant(s')
      && forall i, k: nat :: i in s.records && k < |s.records[i].input.files| ==> KeepsFile(s, s', i, k)
  {
    var s' := Next(s, e);
    BeginAcceptShape(s, e.id, e.index, e.actor, e.token, e.length, e.hash, e.now);
    if SameUploads(s, s') {
      SameUploadsKeeps(s, s');
      BeginAcceptRewrites(s, e.id, e.index, e.actor, e.token, e.length, e.hash, e.now);
    } else {
      assert forall k :: 0 <= k < |s.accepts| ==> AcceptTraces(s, s.accepts[k]);
    }
  }

  lemma OtherStepsSameUploads(s: State, e: Event)
    requires AcceptsInvariant(s) && Enabled(s, e) && !e.BeginAccept? && !e.CommitAccept?
    ensures SameUploads(s, Next(s, e))
  {
    if Locked(e) {
      LockedSameUploads(s, e);
    } else {
      match e
      case FinishPrepare(prepare, now) => FinishSameUploads(s, prepare, now);
      case BeginPrepare(id, input, now) => assert Next(s, e).records == s.records;
      case WalkedPrepare(prepare, _, _) => assert Next(s, e).records == s.records;
      case Stage(prepare) => assert Next(s, e).records == s.records;
      case _ =>
    }
  }

  lemma FinishSameUploads(s: State, prepare: nat, now: int)
    requires prepare < |s.prepares|
    ensures SameUploads(s, AfterFinishPrepare(s, prepare, now))
  {
  }

  lemma LockedSameUploads(s: State, e: Event)
    requires AcceptsInvariant(s) && Enabled(s, e) && Locked(e)
    ensures SameUploads(s, Next(s, e))
  {
    var s' := Next(s, e);
    var phase := LockedEffect(s, e);
    if e.WalkedSpace? {
      assert s'.accepts == s.accepts;
      assert e.id !in s.issued;
    } else {
      assert s'.accepts == s.accepts;
    }
  }

  lemma StepKeepsAccepts(s: State, e: Event)
    requires AcceptsInvariant(s) && Enabled(s, e)
    ensures AcceptsInvariant(Next(s, e))
  {
    if e.BeginAccept? {
      BeginAcceptKeeps(s, e);
    } else if e.CommitAccept? {
      CommitAcceptStaysSound(s, e.accept, e.now);
    } else {
      OtherStepsSameUploads(s, e);
      SameUploadsKeeps(s, Next(s, e));
    }
  }

  /** As long as its intent stays on record, a step keeps an accepted file exactly when it is not an
      accept of the same file with another hash. */
  lemma KeepsFileIff(s: State, e: Event, id: Id, k: nat)
    requires AcceptsInvariant(s) && Enabled(s, e)
    requires id in s.records && id in Next(s, e).records && k < |s.records[id].input.files|
    ensures KeepsFile(s, Next(s, e), id, k) <==> !Replaces(s, e, id, k)
  {
    if e.BeginAccept? {
      BeginAcceptKeeps(s, e);
    } else if e.CommitAccept? {
      CommitAcceptKeeps(s, e.accept, e.now, id, k);
    } else {
      OtherStepsSameUploads(s, e);
      SameUploadsKeeps(s, Next(s, e));
    }
  }

  /** In every run, what an intent has accepted is what it declared. */
  lemma {:induction false} AcceptedAsDeclared(run: seq<State>, events: seq<Event>, n: nat)
    requires IsRun(run, events) && n < |run|
    ensures AcceptsInvariant(run[n])
  {
    if n > 0 {
      AcceptedAsDeclared(run, events, n - 1);
      assert StepAt(run, events, n - 1);
      StepKeepsAccepts(run[n - 1], events[n - 1]);
    }
  }

  lemma KeepsFileComposes(a: State, b: State, c: State, id: Id, k: nat)
    requires KeepsFile(a, b, id, k) && KeepsFile(b, c, id, k)
    ensures KeepsFile(a, c, id, k)
  {
  }

  lemma StillOnRecord(run: seq<State>, events: seq<Event>, m: nat, n: nat, id: Id)
    requires IsRun(run, events) && m < n < |run| && id in run[m].records && id in run[n].records
    ensures id in run[n - 1].records && run[n - 1].records[id].input == run[m].records[id].input
  {
    OnlyForward(run, events, m, n - 1, id);
    assert StepAt(run, events, n - 1);
    StepMovesForward(run[n - 1], events[n - 1], id);
  }

  /** An accepted file keeps its hash and size for as long as its intent is on record and no other
      bytes are accepted for it by a call that overlapped. */
  lemma {:induction false} AcceptedFilesNeverChange(run: seq<State>, events: seq<Event>, m: nat, n: nat, id: Id, k: nat)
    requires IsRun(run, events) && m <= n < |run|
    requires id in run[m].records && id in run[n].records && k < |run[m].records[id].input.files|
    requires forall j :: m <= j < n ==> !Replaces(run[j], events[j], id, k)
    ensures KeepsFile(run[m], run[n], id, k)
    decreases n
  {
    if m == n {
      AcceptedAsDeclared(run, events, m);
      assert Sound(run[m].records[id]);
    } else {
      StillOnRecord(run, events, m, n, id);
      AcceptedFilesNeverChange(run, events, m, n - 1, id, k);
      AcceptedAsDeclared(run, events, n - 1);
      assert StepAt(run, events, n - 1);
      KeepsFileIff(run[n - 1], events[n - 1], id, k);
      KeepsFileComposes(run[m], run[n - 1], run[n], id, k);
    }
  }

  lemma BeginAcceptAdmits(s: State, id: Id, k: nat, hash: int, now: int)
    requires AcceptsInvariant(s)
    requires id in s.records && k < |s.records[id].input.files| && !s.records[id].uploaded[k]
    requires s.records[id].progress == Open && !IsExpired(s.records[id], now)
    ensures var r := s.records[id].input;
      AfterBeginAccept(s, id, k, r.actor, r.token, r.files[k].size, hash, now)
        == s.(accepts := s.accepts + [Accept(id, k, r.files[k].size, hash)])
  {
    assert Sound(s.records[id]);
  }

  /** Two overlapping accepts of one open file: both pass the checks, and the hash recorded by the
      first is replaced by the second's. */
  lemma OverlapChangesHash(s: State, id: Id, k: nat, h1: int, h2: int, now: int)
    requires AcceptsInvariant(s) && s.accepts == []
    requires id in s.records && k < |s.records[id].input.files| && !s.records[id].uploaded[k] && h1 != h2
    requires s.records[id].progress == Open && !IsExpired(s.records[id], now)
    ensures var r := s.records[id].input; var size := r.files[k].size;
      var s1 := AfterBeginAccept(s, id, k, r.actor, r.token, size, h1, now);
      var s2 := AfterBeginAccept(s1, id, k, r.actor, r.token, size, h2, now);
      && |s2.accepts| == 2
      && var s3 := AfterCommitAccept(s2, 0, now);
         && |s3.accepts| == 1
         && var s4 := AfterCommitAccept(s3, 0, now);
            && id in s3.records && id in s4.records && !KeepsFile(s3, s4, id, k)
  {
    var r := s.records[id];
    var size := r.input.files[k].size;
    BeginAcceptAdmits(s, id, k, h1, now);
    var s1 := s.(accepts := s.accepts + [Accept(id, k, size, h1)]);
    assert s1.accepts == [Accept(id, k, size, h1)];
    BeginAcceptAdmits(s1, id, k, h2, now);
    var s2 := s1.(accepts := s1.accepts + [Accept(id, k, size, h2)]);
    var s3 := AfterCommitAccept(s2, 0, now);
    assert s3.accepts == [Accept(id, k, size, h2)];
    assert s3.records[id].hashes[k] == Some(h1);
    assert AfterCommitAccept(s3, 0, now).records[id].hashes[k] == Some(h2);
  }

  // ---------------------------------------------------------------- leases

  /** The clock reading of a step, if it takes one. */
  function Clock(e: Event): Option<int> {
    match e
    case WalkedSpace(_, _, _, now) => Some(now)
    case BeginAccept(_, _, _, _, _, _, now) => Some(now)
    case CommitAccept(_, now) => Some(now)
    case FinishPrepare(_, now) => Some(now)
    case _ => None
  }

  /** The lease is as it was, or was renewed at `t` or later. */
  ghost predicate LeaseSince(s: State, s': State, id: Id, t: int) {
    id in s'.records ==>
      (id in s.records && s'.records[id].updatedAt == s.records[id].updatedAt) || s'.records[id].updatedAt >= t
  }

  lemma RenewedAccept(s: State, e: Event, id: Id, t: int)
    requires Enabled(s, e) && (e.BeginAccept? || e.CommitAccept?) && e.now >= t
    ensures LeaseSince(s, Next(s, e), id, t)
  {
  }

  lemma StepRenewsLease(s: State, e: Event, id: Id, t: int)
    requires Enabled(s, e) && (Clock(e).Some? ==> Clock(e).value >= t)
    ensures LeaseSince(s, Next(s, e), id, t)
  {
    if Locked(e) {
      var phase := LockedEffect(s, e);
    } else {
      match e
      case BeginAccept(_, _, _, _, _, _, _) => RenewedAccept(s, e, id, t);
      case CommitAccept(_, _) => RenewedAccept(s, e, id, t);
      case FinishPrepare(prepare, now) =>
      case BeginPrepare(i, input, now) => assert Next(s, e).records == s.records;
      case WalkedPrepare(prepare, _, _) => assert Next(s, e).records == s.records;
      case Stage(prepare) => assert Next(s, e).records == s.records;
      case _ =>
    }
  }

  lemma {:induction false} LeasesSince(run: seq<State>, events: seq<Event>, m: nat, n: nat, id: Id, t: int)
    requires IsRun(run, events) && m <= n < |run|
    requires forall j :: m <= j < n ==> Clock(events[j]).Some? ==> Clock(events[j]).value >= t
    ensures LeaseSince(run[m], run[n], id, t)
    decreases n
  {
    if m < n {
      LeasesSince(run, events, m, n - 1, id, t);
      assert StepAt(run, events, n - 1);
      StepRenewsLease(run[n - 1], events[n - 1], id, t);
    }
  }

  lemma {:induction false} GoneForGood(run: seq<State>, events: seq<Event>, m: nat, n: nat, id: Id)
    requires IsRun(run, events) && m <= n < |run| && Gone(run[m], id)
    ensures Gone(run[n], id)
    decreases n
  {
    if m < n {
      GoneForGood(run, events, m, n - 1, id);
      assert StepAt(run, events, n - 1);
      StepMovesForward(run[n - 1], events[n - 1], id);
    }
  }

  lemma RemovedIsGone(run: seq<State>, events: seq<Event>, j: nat, id: Id)
    requires IsRun(run, events) && j < |events| && events[j] == Remove(id) && id in run[j].issued
    ensures Gone(run[j + 1], id)
  {
    assert StepAt(run, events, j);
  }

  lemma {:induction false} IssuedStays(run: seq<State>, events: seq<Event>, m: nat, n: nat, id: Id)
    requires IsRun(run, events) && m <= n < |run| && id in run[m].issued
    ensures id in run[n].issued
    decreases n
  {
    if m < n {
      IssuedStays(run, events, m, n - 1, id);
      assert StepAt(run, events, n - 1);
      StepMovesForward(run[n - 1], events[n - 1], id);
      StepKeepsIssued(run[n - 1], events[n - 1]);
    }
  }

  lemma StepKeepsIssued(s: State, e: Event)
    requires Enabled(s, e)
    ensures s.issued <= Next(s, e).issued
  {
    if Locked(e) {
      var phase := LockedEffect(s, e);
    } else if !e.Remove? && !e.Arrive? {
      UnlockedRewrites(s, e);
    }
  }

  /** A sweep that starts at time `t` removes, one by one and amid other steps, every intent it
      found expired.  When it is through, no intent on record counts as expired at `t`. */
  lemma SweepLeavesNoneExpired(run: seq<State>, events: seq<Event>, m: nat, n: nat, t: int, id: Id)
    requires IsRun(run, events) && m <= n < |run|
    requires forall j :: m <= j < n ==> Clock(events[j]).Some? ==> Clock(events[j]).value >= t
    requires forall i :: i in run[m].records && IsExpired(run[m].records[i], t) ==>
      exists j :: m <= j < n && events[j] == Remove(i)
    ensures id in run[n].records ==> !IsExpired(run[n].records[id], t)
  {
    LeasesSince(run, events, m, n, id, t);
    if id in run[m].records && IsExpired(run[m].records[id], t) {
      var j :| m <= j < n && events[j] == Remove(id);
      RecordsAreIssued(run, events, m, id);
      IssuedStays(run, events, m, j, id);
      RemovedIsGone(run, events, j, id);
      GoneForGood(run, events, j + 1, n, id);
    }
  }
}
