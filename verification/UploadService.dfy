/** The service object itself: its fields, and the stretches of its methods between two awaits,
    each proved to be the transition of `UploadIntents` that the theorems speak about. */
module UploadService {
  import opened Wrappers
  import opened UploadIntents
  import opened UploadQuota
  import opened UploadLifecycle

  class UploadIntentService {
    var records: map<Id, Record>
    var idempotency: map<IndexKey, Id>
    /** The calls chained on `issueTail`, in arrival order. */
    var calls: seq<Call>
    var accepts: seq<Accept>
    var prepares: seq<Prepare>
    /** The files below the runs directories. */
    var disk: map<Path, nat>
    ghost var still: map<Path, nat>
    ghost var issued: set<Id>
    ghost var staged: set<(Id, nat)>

    ghost function View(): State
      reads this
    {
      State(records, idempotency, disk, calls, accepts, prepares, still, issued, staged)
    }

    constructor (onDisk: map<Path, nat>)
      ensures View() == Start(onDisk)
    {
      records, idempotency, disk := map[], map[], onDisk;
      calls, accepts, prepares := [], [], [];
      still, issued, staged := map[], {}, {};
    }

    /** `issue`, up to `await previous`. */
    method Issue(input: Input) returns (call: nat)
      modifies this
      ensures View() == Next(old(View()), Arrive(input)) && call == old(|calls|)
    {
      call := |calls|;
      calls := calls + [Call(input, Waiting)];
    }

    method SetPhase(call: nat, phase: Phase)
      requires call < |calls|
      modifies this`calls
      ensures calls == old(calls)[call := old(calls)[call].(phase := phase)]
    {
      calls := calls[call := calls[call].(phase := phase)];
    }

    /** `issueLocked`, up to the first directory walk. */
    method EnterLocked(call: nat)
      requires Turn(View(), call)
      modifies this
      ensures View() == AfterEnter(old(View()), call)
    {
      var input := calls[call].input;
      var key := KeyOf(input);
      if key in idempotency {
        var id := idempotency[key];
        if id in records && SameBinding(records[id], input) {
          SetPhase(call, Done(Returned(id)));
        } else {
          SetPhase(call, Done(Rejected(ReplayMismatch)));
        }
        return;
      }
      var total := DeclaredBytes(input.files);
      if SomeFileTooBig(input.files) || total > MAX_STEP_RESOLUTION_BYTES {
        SetPhase(call, Done(Rejected(QuotaExceeded)));
        return;
      }
      SetPhase(call, WalkingRun(records));
      still := disk;
    }

    static method DeclaredBytes(files: seq<File>) returns (total: nat)
      ensures total == Total(files)
    {
      total := 0;
      for i := 0 to |files|
        invariant total == Total(files[..i])
      {
        assert files[..i + 1][..i] == files[..i];
        total := total + files[i].size;
      }
      assert files[..|files|] == files;
    }

    static method ReservedBytes(active: map<Id, Record>, scope: Scope) returns (total: nat)
      ensures total == Reserved(active, scope)
    {
      total := 0;
      var todo := active;
      while todo != map[]
        invariant total + Reserved(todo, scope) == Reserved(active, scope)
        decreases |todo|
      {
        var id :| id in todo;
        ReservedPick(todo, id, scope);
        if Counts(todo[id].input, scope) {
          var n := DeclaredBytes(todo[id].input.files);
          total := total + n;
        }
        todo := todo - {id};
      }
    }

    method RunWalked(call: nat, stored: nat)
      requires Enabled(View(), WalkedRun(call, stored))
      modifies this
      ensures View() == AfterWalkedRun(old(View()), call, stored)
    {
      var c := calls[call];
      var reserved := ReservedBytes(c.phase.active, RunScope(c.input.space, c.input.run));
      var total := DeclaredBytes(c.input.files);
      if stored + reserved + total > MAX_RUN_ARTIFACT_BYTES {
        SetPhase(call, Done(Rejected(QuotaExceeded)));
      } else {
        SetPhase(call, WalkingSpace(c.phase.active));
      }
    }

    /** The second check, and the commit of the new record with its idempotency key. */
    method SpaceWalked(call: nat, stored: nat, id: Id, now: int)
      requires Enabled(View(), WalkedSpace(call, stored, id, now))
      modifies this
      ensures View() == AfterWalkedSpace(old(View()), call, stored, id, now)
    {
      var c := calls[call];
      var reserved := ReservedBytes(c.phase.active, SpaceScope(c.input.space));
      var total := DeclaredBytes(c.input.files);
      if stored + reserved + total > MAX_SPACE_ARTIFACT_BYTES {
        SetPhase(call, Done(Rejected(QuotaExceeded)));
        return;
      }
      records := records[id := NewRecord(c.input, now)];
      idempotency := idempotency[KeyOf(c.input) := id];
      issued := issued + {id};
      SetPhase(call, Persisting(id));
    }

    /** The `finally` of `issue`: whatever happened, the next call in line may go on. */
    method Release(call: nat, ok: bool)
      requires Enabled(View(), Settle(call, ok))
      modifies this
      ensures View() == Next(old(View()), Settle(call, ok))
      ensures call + 1 < |calls| && calls[call + 1].phase.Waiting? ==> Turn(View(), call + 1)
    {
      SetPhase(call, Done(if ok then Returned(calls[call].phase.id) else Failed));
    }

    /** `acceptFile`, up to writing the bytes. */
    method BeginAccept(id: Id, index: nat, actor: string, token: string, length: nat, hash: int, now: int)
      returns (refusal: Option<Code>)
      modifies this
      ensures View() == AfterBeginAccept(old(View()), id, index, actor, token, length, hash, now)
      ensures refusal == AcceptRefusal(old(records), id, index, actor, token, length, hash, now)
    {
      var open := RequireOpen(records, id, actor, token, now);
      if open.Err? {
        return Some(open.error);
      }
      var r := open.value;
      if index >= |r.input.files| {
        return Some(FileNotFound);
      }
      if index < |r.uploaded| && r.uploaded[index] {
        if index < |r.hashes| && index < |r.received| && r.hashes[index] == Some(hash) && r.received[index] == length {
          records := records[id := r.(updatedAt := now)];
          return None;
        }
        return Some(FileReplayMismatch);
      }
      if length != r.input.files[index].size {
        return Some(SizeMismatch);
      }
      accepts := accepts + [Accept(id, index, length, hash)];
      return None;
    }

    /** `acceptFile`, once the bytes are written. */
    method CommitAccept(accept: nat, now: int)
      requires accept < |accepts|
      modifies this
      ensures View() == AfterCommitAccept(old(View()), accept, now)
    {
      var a := accepts[accept];
      accepts := Without(accepts, accept);
      if a.id in records {
        records := records[a.id := AcceptInto(records[a.id], a, now)];
      }
    }

    /** `prepareResolve`, up to the first directory walk. */
    method BeginPrepare(id: Id, input: Input, now: int) returns (refusal: Option<Code>)
      modifies this
      ensures View() == AfterBeginPrepare(old(View()), id, input, now)
      ensures refusal == PrepareRefusal(old(records), id, input, now)
    {
      refusal := PrepareRefusal(records, id, input, now);
      if refusal.None? {
        var r := records[id].input;
        var runReserved := ReservedBytes(records, RunScope(r.space, r.run));
        var spaceReserved := ReservedBytes(records, SpaceScope(r.space));
        prepares := prepares + [Prepare(id, r, runReserved, spaceReserved, None)];
      }
    }

    method StageNext(prepare: nat)
      requires Enabled(View(), Stage(prepare))
      modifies this
      ensures View() == AfterStage(old(View()), prepare)
    {
      var p := prepares[prepare];
      var path := PathOf(p.input, p.next.value);
      disk := disk[path := p.input.files[p.next.value].size];
      still := still - {path};
      staged := staged + {(p.id, p.next.value)};
      prepares := prepares[prepare := p.(next := Some(p.next.value + 1))];
    }

    method FinishPrepare(prepare: nat, now: int)
      requires prepare < |prepares|
      modifies this
      ensures View() == AfterFinishPrepare(old(View()), prepare, now)
    {
      var id := prepares[prepare].id;
      prepares := Without(prepares, prepare);
      if id in records {
        records := records[id := records[id].(progress := Prepared, updatedAt := now)];
      }
    }

    /** `remove`: what `consume` is, and what `abandon` ends with. */
    method RemoveIntent(id: Id)
      modifies this`records, this`idempotency
      ensures View() == AfterRemove(old(View()), id) && records == old(records) - {id}
    {
      if id in records {
        idempotency := idempotency - {KeyOf(records[id].input)};
      }
      records := records - {id};
    }

    static function ExpiredIds(records: map<Id, Record>, now: int): set<Id> {
      set id | id in records && IsExpired(records[id], now)
    }

    /** A sweep that nothing interrupts: exactly the expired intents go. */
    method SweepExpired(now: int) returns (count: nat)
      requires Agreement(View())
      modifies this`records, this`idempotency
      ensures Agreement(View()) && records == old(records) - ExpiredIds(old(records), now)
      ensures count == |ExpiredIds(old(records), now)|
    {
      var expired := ExpiredIds(records, now);
      count := |expired|;
      var todo := expired;
      while todo != {}
        invariant todo <= expired && Agreement(View())
        invariant records == old(records) - (expired - todo)
      {
        var id :| id in todo;
        RemoveKeepsAgreement(View(), id);
        RemoveIntent(id);
        SweptOneMore(old(records), expired, todo, id);
        todo := todo - {id};
      }
      assert expired - {} == expired;
    }
  }

  lemma SweptOneMore(records: map<Id, Record>, expired: set<Id>, todo: set<Id>, id: Id)
    requires id in todo && todo <= expired
    ensures records - (expired - todo) - {id} == records - (expired - (todo - {id}))
  {
  }
}
