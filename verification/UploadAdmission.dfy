/** Who may upload and prepare, and when: what the calls of the upload service admit, by what the
    intent was issued for and what the call brings along; and what that means over every run. */
module UploadAdmission {
  import opened Wrappers
  import opened UploadIntents
  import opened UploadQuota
  import opened UploadLifecycle

  /** The caller is the one the intent was issued to, the intent is open, and it was used less than
      an hour ago. */
  ghost predicate MayUse(s: State, id: Id, actor: string, token: string, now: int) {
    && id in s.records
    && s.records[id].input.actor == actor && s.records[id].input.token == token
    && s.records[id].progress == Open && now - s.records[id].updatedAt < 3_600_000
  }

  /** The call brings a declared file that is still missing, in its declared size. */
  ghost predicate BringsFile(s: State, e: Event) {
    && e.BeginAccept? && MayUse(s, e.id, e.actor, e.token, e.now)
    && var r := s.records[e.id];
       && e.index < |r.input.files| && |r.uploaded| == |r.input.files|
       && !r.uploaded[e.index] && e.length == r.input.files[e.index].size
  }

  /** The call brings once more what was accepted before. */
  ghost predicate RepeatsFile(s: State, e: Event) {
    && e.BeginAccept? && MayUse(s, e.id, e.actor, e.token, e.now)
    && var r := s.records[e.id];
       && e.index < |r.input.files| && |r.uploaded| == |r.received| == |r.hashes| == |r.input.files|
       && r.uploaded[e.index] && r.hashes[e.index] == Some(e.hash) && r.received[e.index] == e.length
  }

  /** An accept starts exactly when it brings a missing file; a repetition renews the lease; nothing
      else changes anything. */
  lemma BeginAcceptIff(s: State, e: Event)
    requires AcceptsInvariant(s) && e.BeginAccept?
    ensures BringsFile(s, e) ==> Next(s, e) == s.(accepts := s.accepts + [Accept(e.id, e.index, e.length, e.hash)])
    ensures RepeatsFile(s, e) ==> Next(s, e) == s.(records := s.records[e.id := s.records[e.id].(updatedAt := e.now)])
    ensures Next(s, e).accepts != s.accepts <==> BringsFile(s, e)
    ensures Next(s, e) != s <==> BringsFile(s, e) || (RepeatsFile(s, e) && s.records[e.id].updatedAt != e.now)
  {
    var s' := Next(s, e);
    if e.id in s.records {
      assert Sound(s.records[e.id]);
    }
    if RepeatsFile(s, e) {
      assert s'.records[e.id].updatedAt == e.now;
    }
    if BringsFile(s, e) {
      assert |s'.accepts| == |s.accepts| + 1;
    }
  }

  /** The call is for the resolution the intent was issued for, and no file is missing. */
  ghost predicate ReadyToPrepare(s: State, e: Event) {
    && e.BeginPrepare? && MayUse(s, e.id, e.input.actor, e.input.token, e.now)
    && var r := s.records[e.id];
       && r.input.run == e.input.run && r.input.step == e.input.step
       && r.input.branch == e.input.branch && r.input.key == e.input.key
       && forall k :: 0 <= k < |r.uploaded| ==> r.uploaded[k]
  }

  /** A prepare starts exactly when it is ready; it carries what the intent was issued for. */
  lemma BeginPrepareIff(s: State, e: Event)
    requires e.BeginPrepare?
    ensures if ReadyToPrepare(s, e) then
        && |Next(s, e).prepares| == |s.prepares| + 1
        && Next(s, e) == s.(prepares := Next(s, e).prepares) && s.prepares <= Next(s, e).prepares
        && var p, r := Next(s, e).prepares[|s.prepares|], s.records[e.id].input;
           p == Prepare(e.id, r, Reserved(s.records, RunScope(r.space, r.run)), Reserved(s.records, SpaceScope(r.space)), None)
      else Next(s, e) == s
  {
    if e.id in s.records && ReadyToPrepare(s, e) {
      assert false !in s.records[e.id].uploaded;
    }
  }

  // ---------------------------------------------------------------- the codes of a refusal

  /** Both calls check the intent in the same order. */
  lemma OpenCodes(s: State, id: Id, actor: string, token: string, now: int)
    ensures var code := RequireOpen(s.records, id, actor, token, now);
      && (code.Ok? <==> MayUse(s, id, actor, token, now))
      && (code.Ok? ==> code.value == s.records[id])
      && (code == Err(NotFound) <==> id !in s.records)
      && (code == Err(Forbidden) <==>
            id in s.records && !(s.records[id].input.actor == actor && s.records[id].input.token == token))
      && (code == Err(Consumed) <==>
            && id in s.records && s.records[id].input.actor == actor && s.records[id].input.token == token
            && s.records[id].progress == Prepared)
      && (code == Err(Expired) <==>
            && id in s.records && s.records[id].input.actor == actor && s.records[id].input.token == token
            && s.records[id].progress == Open && now >= s.records[id].updatedAt + 3_600_000)
      && (code.Err? ==> code.error in {NotFound, Forbidden, Consumed, Expired})
  {
  }

  /** What an admitted caller is told about the file. */
  lemma AcceptCodes(s: State, e: Event)
    requires AcceptsInvariant(s) && e.BeginAccept?
    ensures var refusal := AcceptRefusal(s.records, e.id, e.index, e.actor, e.token, e.length, e.hash, e.now);
      && (refusal.None? <==> BringsFile(s, e) || RepeatsFile(s, e))
      && (MayUse(s, e.id, e.actor, e.token, e.now) ==>
            var r := s.records[e.id];
            && |r.uploaded| == |r.input.files|
            && (refusal == Some(FileNotFound) <==> e.index >= |r.input.files|)
            && (refusal == Some(FileReplayMismatch) <==>
                  e.index < |r.input.files| && r.uploaded[e.index] && !RepeatsFile(s, e))
            && (refusal == Some(SizeMismatch) <==>
                  e.index < |r.input.files| && !r.uploaded[e.index] && e.length != r.input.files[e.index].size))
      && (!MayUse(s, e.id, e.actor, e.token, e.now) ==>
            refusal == Some(RequireOpen(s.records, e.id, e.actor, e.token, e.now).error))
  {
    if e.id in s.records {
      assert Sound(s.records[e.id]);
    }
  }

  lemma PrepareCodes(s: State, e: Event)
    requires e.BeginPrepare?
    ensures var refusal := PrepareRefusal(s.records, e.id, e.input, e.now);
      && (refusal.None? <==> ReadyToPrepare(s, e))
      && (MayUse(s, e.id, e.input.actor, e.input.token, e.now) ==>
            var r := s.records[e.id];
            var bound := r.input.run == e.input.run && r.input.step == e.input.step
                         && r.input.branch == e.input.branch && r.input.key == e.input.key;
            && (refusal == Some(BindingMismatch) <==> !bound)
            && (refusal == Some(Incomplete) <==> bound && exists k :: 0 <= k < |r.uploaded| && !r.uploaded[k]))
      && (!MayUse(s, e.id, e.input.actor, e.input.token, e.now) ==>
            refusal == Some(RequireOpen(s.records, e.id, e.input.actor, e.input.token, e.now).error))
  {
    if e.id in s.records {
      var uploaded := s.records[e.id].uploaded;
      assert false in uploaded <==> exists k :: 0 <= k < |uploaded| && !uploaded[k];
    }
  }

  // ---------------------------------------------------------------- what an admitted call leaves behind

  /** An accept that takes effect marks its file as uploaded, with its length and hash, renews the
      lease, and leaves everything else as it was; for an intent that is gone it does nothing. */
  lemma CommitAcceptDoes(s: State, accept: nat, now: int)
    requires AcceptsInvariant(s) && accept < |s.accepts|
    ensures var a, t := s.accepts[accept], Next(s, CommitAccept(accept, now));
      && t == s.(records := t.records, accepts := Without(s.accepts, accept))
      && if a.id in s.records then
           && t.records == s.records[a.id := t.records[a.id]]
           && var before, after := s.records[a.id], t.records[a.id];
              && after == before.(uploaded := after.uploaded, received := after.received, hashes := after.hashes, updatedAt := now)
              && after.uploaded == before.uploaded[a.index := true]
              && after.received == before.received[a.index := a.length]
              && after.hashes == before.hashes[a.index := Some(a.hash)]
         else t.records == s.records
  {
    var a := s.accepts[accept];
    assert AcceptTraces(s, a);
    if a.id in s.records {
      assert Sound(s.records[a.id]);
    }
  }

  /** Staging writes one file, in its declared size, into the working directory of the intent's step. */
  lemma StageWrites(s: State, k: nat)
    requires Enabled(s, Stage(k))
    ensures var p, t := s.prepares[k], Next(s, Stage(k)); var file := p.input.files[p.next.value];
      && t.disk == s.disk[Path(p.input.space, p.input.run, p.input.step, file.staged) := file.size]
      && t.prepares == s.prepares[k := p.(next := Some(p.next.value + 1))]
      && t.records == s.records && t.index == s.index && t.accepts == s.accepts && t.calls == s.calls
  {
  }

  /** A prepare that is through makes its intent prepared and renews its lease. */
  lemma FinishDoes(s: State, k: nat, now: int)
    requires Enabled(s, FinishPrepare(k, now))
    ensures var id, t := s.prepares[k].id, Next(s, FinishPrepare(k, now));
      && t == s.(records := t.records, prepares := Without(s.prepares, k))
      && t.records == if id in s.records then s.records[id := s.records[id].(progress := Prepared, updatedAt := now)] else s.records
  {
  }

  /** Removing an intent takes its record and its key, and nothing else. */
  lemma RemoveDoes(s: State, id: Id)
    ensures var t := Next(s, Remove(id));
      && t == s.(records := s.records - {id}, index := t.index)
      && t.index.Keys == s.index.Keys - (if id in s.records then {KeyOf(s.records[id].input)} else {})
      && forall key :: key in t.index ==> t.index[key] == s.index[key]
  {
    if id !in s.records {
      assert s.records - {id} == s.records;
    }
  }

  // ---------------------------------------------------------------- over every run: uploads

  ghost predicate BroughtAt(run: seq<State>, events: seq<Event>, j: nat, id: Id, k: nat, hash: int)
    requires |run| == |events| + 1 && j < |events|
  {
    BringsFile(run[j], events[j]) && events[j].id == id && events[j].index == k && events[j].hash == hash
  }

  /** Before moment `n` the owner brought the file, with these bytes. */
  ghost predicate Brought(run: seq<State>, events: seq<Event>, n: nat, id: Id, k: nat, hash: int)
    requires |run| == |events| + 1 && n < |run|
  {
    exists j :: 0 <= j < n && BroughtAt(run, events, j, id, k, hash)
  }

  ghost predicate FileBrought(run: seq<State>, events: seq<Event>, n: nat, s: State, id: Id, k: nat)
    requires |run| == |events| + 1 && n < |run|
  {
    id in s.records && k < |s.records[id].uploaded| && s.records[id].uploaded[k] ==>
      var r := s.records[id];
      k < |r.hashes| && r.hashes[k].Some? && Brought(run, events, n, id, k, r.hashes[k].value)
  }

  ghost predicate AllBrought(run: seq<State>, events: seq<Event>, n: nat, s: State)
    requires |run| == |events| + 1 && n < |run|
  {
    AcceptsBrought(run, events, n, s) && forall id, k: nat :: FileBrought(run, events, n, s, id, k)
  }

  ghost predicate AcceptsBrought(run: seq<State>, events: seq<Event>, n: nat, s: State)
    requires |run| == |events| + 1 && n < |run|
  {
    forall m :: 0 <= m < |s.accepts| ==> Brought(run, events, n, s.accepts[m].id, s.accepts[m].index, s.accepts[m].hash)
  }

  lemma LaterBrought(run: seq<State>, events: seq<Event>, n: nat, s: State)
    requires |run| == |events| + 1 && n < |events| && AllBrought(run, events, n, s)
    ensures AllBrought(run, events, n + 1, s)
  {
    var later := n + 1;
    forall m | 0 <= m < |s.accepts|
      ensures Brought(run, events, later, s.accepts[m].id, s.accepts[m].index, s.accepts[m].hash)
    {
      var j :| 0 <= j < n && BroughtAt(run, events, j, s.accepts[m].id, s.accepts[m].index, s.accepts[m].hash);
    }
    forall id, k: nat
      ensures FileBrought(run, events, later, s, id, k)
    {
      assert FileBrought(run, events, n, s, id, k);
      if id in s.records && k < |s.records[id].uploaded| && s.records[id].uploaded[k] {
        var j :| 0 <= j < n && BroughtAt(run, events, j, id, k, s.records[id].hashes[k].value);
      }
    }
  }

  lemma BegunIsBrought(run: seq<State>, events: seq<Event>, n: nat)
    requires IsRun(run, events) && n < |events| && StepAt(run, events, n) && events[n].BeginAccept?
    requires AcceptsInvariant(run[n]) && AllBrought(run, events, n + 1, run[n])
    ensures AllBrought(run, events, n + 1, run[n + 1])
  {
    var s, e, t, later := run[n], events[n], run[n + 1], n + 1;
    BeginAcceptIff(s, e);
    if BringsFile(s, e) {
      assert BroughtAt(run, events, n, e.id, e.index, e.hash);
    }
    forall id, k: nat
      ensures FileBrought(run, events, later, t, id, k)
    {
      assert FileBrought(run, events, later, s, id, k);
    }
  }

  lemma AcceptsAreBrought(run: seq<State>, events: seq<Event>, n: nat)
    requires IsRun(run, events) && n < |events| && StepAt(run, events, n) && events[n].CommitAccept?
    requires AllBrought(run, events, n + 1, run[n])
    ensures AcceptsBrought(run, events, n + 1, run[n + 1])
  {
    var s, t, later, i := run[n], run[n + 1], n + 1, events[n].accept;
    forall m | 0 <= m < |t.accepts|
      ensures Brought(run, events, later, t.accepts[m].id, t.accepts[m].index, t.accepts[m].hash)
    {
      assert t.accepts[m] == s.accepts[if m < i then m else m + 1];
    }
  }

  lemma CommittedIsBrought(run: seq<State>, events: seq<Event>, n: nat)
    requires IsRun(run, events) && n < |events| && StepAt(run, events, n) && events[n].CommitAccept?
    requires AcceptsInvariant(run[n]) && AllBrought(run, events, n + 1, run[n])
    ensures AllBrought(run, events, n + 1, run[n + 1])
  {
    var s, t, later, i := run[n], run[n + 1], n + 1, events[n].accept;
    var a := s.accepts[i];
    AcceptsAreBrought(run, events, n);
    assert Brought(run, events, later, a.id, a.index, a.hash);
    CommitAcceptDoes(s, i, events[n].now);
    forall id, k: nat
      ensures FileBrought(run, events, later, t, id, k)
    {
      assert FileBrought(run, events, later, s, id, k);
      if id in s.records {
        assert Sound(s.records[id]);
      }
    }
  }

  lemma OthersBringNothing(run: seq<State>, events: seq<Event>, n: nat)
    requires IsRun(run, events) && n < |events| && SameUploads(run[n], run[n + 1])
    requires AcceptsInvariant(run[n]) && AllBrought(run, events, n + 1, run[n])
    ensures AllBrought(run, events, n + 1, run[n + 1])
  {
    var s, t, later := run[n], run[n + 1], n + 1;
    forall id, k: nat
      ensures FileBrought(run, events, later, t, id, k)
    {
      assert FileBrought(run, events, later, s, id, k);
    }
  }

  lemma {:induction false} AlwaysBrought(run: seq<State>, events: seq<Event>, n: nat)
    requires IsRun(run, events) && n < |run|
    ensures AllBrought(run, events, n, run[n])
  {
    if n > 0 {
      AlwaysBrought(run, events, n - 1);
      AcceptedAsDeclared(run, events, n - 1);
      LaterBrought(run, events, n - 1, run[n - 1]);
      assert StepAt(run, events, n - 1);
      var e := events[n - 1];
      if e.BeginAccept? {
        BegunIsBrought(run, events, n - 1);
      } else if e.CommitAccept? {
        CommittedIsBrought(run, events, n - 1);
      } else {
        OtherStepsSameUploads(run[n - 1], e);
        OthersBringNothing(run, events, n - 1);
      }
    }
  }

  /** In every run: whatever counts as uploaded for an intent was brought by the actor, with the
      token, that the intent was issued to, in the declared size, while the intent was open and its
      lease ran; and the recorded hash is the one of those bytes. */
  lemma UploadedByOwner(run: seq<State>, events: seq<Event>, n: nat, id: Id, k: nat) returns (j: nat)
    requires IsRun(run, events) && n < |run| && id in run[n].records
    requires k < |run[n].records[id].uploaded| && run[n].records[id].uploaded[k]
    ensures j < n && events[j].BeginAccept? && events[j].id == id && events[j].index == k
    ensures var r := run[n].records[id];
      && k < |r.input.files| && k < |r.hashes| && r.hashes[k] == Some(events[j].hash)
      && events[j].actor == r.input.actor && events[j].token == r.input.token
      && events[j].length == r.input.files[k].size
      && MayUse(run[j], id, r.input.actor, r.input.token, events[j].now)
  {
    AlwaysBrought(run, events, n);
    var r := run[n].records[id];
    assert FileBrought(run, events, n, run[n], id, k);
    var i :| 0 <= i < n && BroughtAt(run, events, i, id, k, r.hashes[k].value);
    j := i;
    OnlyForward(run, events, j, n, id);
    RecordsAreIssued(run, events, n, id);
  }

  // ---------------------------------------------------------------- over every run: prepares

  ghost predicate AskedAt(run: seq<State>, events: seq<Event>, j: nat, id: Id)
    requires |run| == |events| + 1 && j < |events|
  {
    ReadyToPrepare(run[j], events[j]) && events[j].id == id
  }

  /** Before moment `n` the owner asked to prepare the intent, and it was ready. */
  ghost predicate Asked(run: seq<State>, events: seq<Event>, n: nat, id: Id)
    requires |run| == |events| + 1 && n < |run|
  {
    exists j :: 0 <= j < n && AskedAt(run, events, j, id)
  }

  ghost predicate IsPrepared(s: State, id: Id) {
    id in s.records && s.records[id].progress == Prepared
  }

  /** Prepares under way, prepared intents and staged files: all were asked for. */
  ghost predicate AllAsked(run: seq<State>, events: seq<Event>, n: nat, s: State)
    requires |run| == |events| + 1 && n < |run|
  {
    && (forall m :: 0 <= m < |s.prepares| ==> Asked(run, events, n, s.prepares[m].id))
    && (forall id :: IsPrepared(s, id) ==> Asked(run, events, n, id))
    && forall c :: c in s.staged ==> Asked(run, events, n, c.0)
  }

  lemma LaterAsked(run: seq<State>, events: seq<Event>, n: nat, id: Id)
    requires |run| == |events| + 1 && n < |events| && Asked(run, events, n, id)
    ensures Asked(run, events, n + 1, id)
  {
    var j :| 0 <= j < n && AskedAt(run, events, j, id);
  }

  ghost predicate InFlight(s: State, id: Id) {
    exists k :: 0 <= k < |s.prepares| && s.prepares[k].id == id
  }

  /** What a step may do to prepares: start one that is ready, go on with one, or end one. */
  ghost predicate PreparesFrom(s: State, e: Event, t: State) {
    && (forall m :: 0 <= m < |t.prepares| ==> InFlight(s, t.prepares[m].id) || (ReadyToPrepare(s, e) && t.prepares[m].id == e.id))
    && (forall c :: c in t.staged ==> c in s.staged || InFlight(s, c.0))
    && (forall id :: IsPrepared(t, id) ==> IsPrepared(s, id) || InFlight(s, id))
  }

  lemma LockedPreparesFrom(s: State, e: Event)
    requires Enabled(s, e) && Locked(e)
    ensures PreparesFrom(s, e, Next(s, e))
  {
    var t := Next(s, e);
    match e {
      case Enter(call) => EnterShape(s, call);
      case WalkedRun(_, _) =>
      case WalkedSpace(call, stored, id, now) => WalkedSpaceShape(s, call, stored, id, now);
      case Settle(_, _) =>
    }
    SamePrepares(s, e, t);
  }

  /** Nothing happens to prepares, and a record that is new or rewritten is not made prepared. */
  lemma SamePrepares(s: State, e: Event, t: State)
    requires t.prepares == s.prepares && t.staged == s.staged && forall id :: IsPrepared(t, id) ==> IsPrepared(s, id)
    ensures PreparesFrom(s, e, t)
  {
    forall m | 0 <= m < |t.prepares|
      ensures InFlight(s, t.prepares[m].id)
    {
      assert s.prepares[m].id == t.prepares[m].id;
    }
  }

  lemma UploadsKeepPrepares(s: State, e: Event)
    requires Enabled(s, e) && (e.BeginAccept? || e.CommitAccept?)
    ensures Next(s, e).prepares == s.prepares && Next(s, e).staged == s.staged
    ensures forall id :: IsPrepared(Next(s, e), id) ==> IsPrepared(s, id)
  {
  }

  lemma UploadsPreparesFrom(s: State, e: Event)
    requires Enabled(s, e) && (e.BeginAccept? || e.CommitAccept?)
    ensures PreparesFrom(s, e, Next(s, e))
  {
    UploadsKeepPrepares(s, e);
    SamePrepares(s, e, Next(s, e));
  }

  lemma BegunPreparesFrom(s: State, e: Event)
    requires Enabled(s, e) && e.BeginPrepare?
    ensures PreparesFrom(s, e, Next(s, e))
  {
    var t := Next(s, e);
    BeginPrepareIff(s, e);
    forall m | 0 <= m < |t.prepares|
      ensures InFlight(s, t.prepares[m].id) || (ReadyToPrepare(s, e) && t.prepares[m].id == e.id)
    {
      assert m < |s.prepares| ==> s.prepares[m] == t.prepares[m];
    }
  }

  lemma EndedPreparesFrom(s: State, e: Event, t: State, p: nat)
    requires p < |s.prepares| && t.staged == s.staged
    requires t.prepares == Without(s.prepares, p)
    requires forall id :: IsPrepared(t, id) ==> IsPrepared(s, id) || id == s.prepares[p].id
    ensures PreparesFrom(s, e, t)
  {
    forall m | 0 <= m < |t.prepares|
      ensures InFlight(s, t.prepares[m].id)
    {
      assert t.prepares[m] == s.prepares[if m < p then m else m + 1];
    }
    assert InFlight(s, s.prepares[p].id);
  }

  lemma AdvancedPreparesFrom(s: State, e: Event, t: State, p: nat)
    requires p < |s.prepares| && |t.prepares| == |s.prepares| && t.records == s.records
    requires forall m :: 0 <= m < |s.prepares| ==> t.prepares[m].id == s.prepares[m].id
    requires forall c :: c in t.staged ==> c in s.staged || c.0 == s.prepares[p].id
    ensures PreparesFrom(s, e, t)
  {
    forall m | 0 <= m < |t.prepares|
      ensures InFlight(s, t.prepares[m].id)
    {
      assert s.prepares[m].id == t.prepares[m].id;
    }
    assert InFlight(s, s.prepares[p].id);
  }

  lemma StepPreparesFrom(s: State, e: Event)
    requires Enabled(s, e)
    ensures PreparesFrom(s, e, Next(s, e))
  {
    var t := Next(s, e);
    if Locked(e) {
      LockedPreparesFrom(s, e);
    } else if e.BeginAccept? || e.CommitAccept? {
      UploadsPreparesFrom(s, e);
    } else if e.BeginPrepare? {
      BegunPreparesFrom(s, e);
    } else {
      match e
      case WalkedPrepare(p, _, _) =>
        if |t.prepares| < |s.prepares| {
          EndedPreparesFrom(s, e, t, p);
        } else {
          AdvancedPreparesFrom(s, e, t, p);
        }
      case Stage(p) => AdvancedPreparesFrom(s, e, t, p);
      case FinishPrepare(p, _) => EndedPreparesFrom(s, e, t, p);
      case DropPrepare(p) => EndedPreparesFrom(s, e, t, p);
      case _ => SamePrepares(s, e, t);
    }
  }

  lemma StepAsked(run: seq<State>, events: seq<Event>, n: nat)
    requires IsRun(run, events) && n < |events| && StepAt(run, events, n) && AllAsked(run, events, n, run[n])
    ensures AllAsked(run, events, n + 1, run[n + 1])
  {
    var s, e, t := run[n], events[n], run[n + 1];
    forall k | 0 <= k < |s.prepares|
      ensures Asked(run, events, n + 1, s.prepares[k].id)
    {
      LaterAsked(run, events, n, s.prepares[k].id);
    }
    StepPreparesFrom(s, e);
    if ReadyToPrepare(s, e) {
      assert AskedAt(run, events, n, e.id);
    }
    forall id | IsPrepared(t, id)
      ensures Asked(run, events, n + 1, id)
    {
      if IsPrepared(s, id) {
        LaterAsked(run, events, n, id);
      }
    }
    forall c | c in t.staged
      ensures Asked(run, events, n + 1, c.0)
    {
      if c in s.staged {
        LaterAsked(run, events, n, c.0);
      }
    }
  }

  /** In every run: what is being prepared, has been prepared or has been staged was asked for by a
      call with the intent's actor, token, run, step, branch and key, while it was open, its lease
      ran and no file was missing. */
  lemma {:induction false} PreparedByOwner(run: seq<State>, events: seq<Event>, n: nat)
    requires IsRun(run, events) && n < |run|
    ensures AllAsked(run, events, n, run[n])
  {
    if n > 0 {
      PreparedByOwner(run, events, n - 1);
      assert StepAt(run, events, n - 1);
      StepAsked(run, events, n - 1);
    }
  }

  // ---------------------------------------------------------------- over every run: staged files

  /** The first `n` files of the intent have been staged. */
  ghost predicate StagedUpTo(s: State, id: Id, n: nat) {
    forall k: nat :: k < n ==> (id, k) in s.staged
  }

  ghost predicate PrepareStaged(s: State, p: Prepare) {
    && p.id in s.issued && (p.id in s.records ==> s.records[p.id].input == p.input)
    && (p.next.Some? ==> p.next.value <= |p.input.files| && StagedUpTo(s, p.id, p.next.value))
  }

  ghost predicate AllStaged(s: State) {
    && (forall id :: id in s.records ==> id in s.issued)
    && (forall m :: 0 <= m < |s.prepares| ==> PrepareStaged(s, s.prepares[m]))
    && forall id :: IsPrepared(s, id) ==> StagedUpTo(s, id, |s.records[id].input.files|)
  }

  /** No prepare is new, nothing is unstaged, and intents keep what they were issued for. */
  ghost predicate KeepsStaged(s: State, t: State) {
    && s.staged <= t.staged && s.issued <= t.issued
    && (forall m :: 0 <= m < |t.prepares| ==> t.prepares[m] in s.prepares || PrepareStaged(t, t.prepares[m]))
    && (forall id :: id in t.records ==>
          && id in t.issued
          && (id in s.records ==> t.records[id].input == s.records[id].input) && (id in s.records || id !in s.issued))
    && (forall id :: IsPrepared(t, id) ==> IsPrepared(s, id) || StagedUpTo(t, id, |t.records[id].input.files|))
  }

  lemma KeepsAllStaged(s: State, t: State)
    requires AllStaged(s) && KeepsStaged(s, t)
    ensures AllStaged(t)
  {
    forall m | 0 <= m < |t.prepares|
      ensures PrepareStaged(t, t.prepares[m])
    {
      if t.prepares[m] in s.prepares {
        var k :| 0 <= k < |s.prepares| && s.prepares[k] == t.prepares[m];
        assert PrepareStaged(s, s.prepares[k]);
      }
    }
    forall id | IsPrepared(t, id)
      ensures StagedUpTo(t, id, |t.records[id].input.files|)
    {
      if IsPrepared(s, id) {
        assert StagedUpTo(s, id, |s.records[id].input.files|);
      }
    }
  }

  lemma LockedKeepsStaged(s: State, e: Event)
    requires AllStaged(s) && Enabled(s, e) && Locked(e)
    ensures KeepsStaged(s, Next(s, e))
  {
    var t := Next(s, e);
    match e {
      case Enter(call) =>
        EnterShape(s, call);
        SameKeepsStaged(s, t);
      case WalkedRun(_, _) => SameKeepsStaged(s, t);
      case WalkedSpace(call, stored, id, now) =>
        WalkedSpaceShape(s, call, stored, id, now);
        if t.calls[call].phase.Persisting? {
          IssuedKeepsStaged(s, t, id, NewRecord(s.calls[call].input, now));
        } else {
          SameKeepsStaged(s, t);
        }
      case Settle(_, _) => SameKeepsStaged(s, t);
    }
  }

  lemma SameKeepsStaged(s: State, t: State)
    requires AllStaged(s) && SameBut(s, t)
    ensures KeepsStaged(s, t)
  {
  }

  lemma IssuedKeepsStaged(s: State, t: State, id: Id, record: Record)
    requires AllStaged(s) && id !in s.issued && record.progress == Open
    requires t.records == s.records[id := record] && t.issued == s.issued + {id}
    requires t.prepares == s.prepares && t.staged == s.staged
    ensures KeepsStaged(s, t)
  {
  }

  lemma RewrittenKeepsStaged(s: State, e: Event)
    requires AllStaged(s) && Enabled(s, e) && (e.BeginAccept? || e.CommitAccept?)
    ensures KeepsStaged(s, Next(s, e))
  {
    UnlockedRewrites(s, e);
    UploadsKeepPrepares(s, e);
  }

  lemma BegunKeepsStaged(s: State, e: Event)
    requires AllStaged(s) && Enabled(s, e) && e.BeginPrepare?
    ensures KeepsStaged(s, Next(s, e))
  {
    var t := Next(s, e);
    BeginPrepareIff(s, e);
    forall m | 0 <= m < |t.prepares|
      ensures t.prepares[m] in s.prepares || PrepareStaged(t, t.prepares[m])
    {
      assert m < |s.prepares| ==> s.prepares[m] == t.prepares[m];
    }
  }

  lemma WithoutAmong<T>(xs: seq<T>, k: nat)
    requires k < |xs|
    ensures forall x :: x in Without(xs, k) ==> x in xs
  {
  }

  lemma StagedKeepsStaged(s: State, p: nat)
    requires AllStaged(s) && Enabled(s, Stage(p))
    ensures KeepsStaged(s, AfterStage(s, p))
  {
    var t := AfterStage(s, p);
    assert PrepareStaged(s, s.prepares[p]);
    forall m | 0 <= m < |t.prepares|
      ensures t.prepares[m] in s.prepares || PrepareStaged(t, t.prepares[m])
    {
      assert m != p ==> t.prepares[m] == s.prepares[m];
    }
  }

  lemma WalkedKeepsStaged(s: State, p: nat, runStored: nat, spaceStored: nat)
    requires AllStaged(s) && Enabled(s, WalkedPrepare(p, runStored, spaceStored))
    ensures KeepsStaged(s, AfterWalkedPrepare(s, p, runStored, spaceStored))
  {
    var t := AfterWalkedPrepare(s, p, runStored, spaceStored);
    assert PrepareStaged(s, s.prepares[p]);
    WithoutAmong(s.prepares, p);
    forall m | 0 <= m < |t.prepares|
      ensures t.prepares[m] in s.prepares || PrepareStaged(t, t.prepares[m])
    {
      assert |t.prepares| == |s.prepares| && m != p ==> t.prepares[m] == s.prepares[m];
    }
  }

  lemma FinishedKeepsStaged(s: State, p: nat, now: int)
    requires AllStaged(s) && Enabled(s, FinishPrepare(p, now))
    ensures KeepsStaged(s, AfterFinishPrepare(s, p, now))
  {
    assert PrepareStaged(s, s.prepares[p]);
    WithoutAmong(s.prepares, p);
  }

  lemma StepKeepsStaged(s: State, e: Event)
    requires AllStaged(s) && Enabled(s, e)
    ensures KeepsStaged(s, Next(s, e))
  {
    if Locked(e) {
      LockedKeepsStaged(s, e);
    } else if e.BeginAccept? || e.CommitAccept? {
      RewrittenKeepsStaged(s, e);
    } else {
      match e
      case BeginPrepare(_, _, _) => BegunKeepsStaged(s, e);
      case WalkedPrepare(p, runStored, spaceStored) => WalkedKeepsStaged(s, p, runStored, spaceStored);
      case Stage(p) => StagedKeepsStaged(s, p);
      case FinishPrepare(p, now) => FinishedKeepsStaged(s, p, now);
      case DropPrepare(p) => WithoutAmong(s.prepares, p);
      case _ =>
    }
  }

  /** In every run: an intent counts as prepared only when each of its files has been staged. */
  lemma {:induction false} PreparedIsStaged(run: seq<State>, events: seq<Event>, n: nat)
    requires IsRun(run, events) && n < |run|
    ensures AllStaged(run[n])
  {
    if n > 0 {
      PreparedIsStaged(run, events, n - 1);
      assert StepAt(run, events, n - 1);
      StepKeepsStaged(run[n - 1], events[n - 1]);
      KeepsAllStaged(run[n - 1], run[n]);
    }
  }
}
