/** Quotas of the upload intents: the stored bytes and everything still to be staged fit together,
    and exactly which stagings break that. */
module UploadQuota {
  import opened UploadIntents

  // ---------------------------------------------------------------- sums over directories

  /** A file that is not there has no bytes. */
  function Size(disk: map<Path, nat>, p: Path): nat {
    if p in disk then disk[p] else 0
  }

  lemma {:induction false} StoredPick(disk: map<Path, nat>, p: Path, scope: Scope)
    requires p in disk
    ensures Stored(disk, scope) == (if InScope(p, scope) then disk[p] else 0) + Stored(disk - {p}, scope)
    decreases |disk|
  {
    var q :| q in disk && Stored(disk, scope) == (if InScope(q, scope) then disk[q] else 0) + Stored(disk - {q}, scope);
    if q != p {
      StoredPick(disk - {q}, p, scope);
      StoredPick(disk - {p}, q, scope);
      assert disk - {q} - {p} == disk - {p} - {q};
    }
  }

  lemma StoredDrop(disk: map<Path, nat>, p: Path, scope: Scope)
    ensures Stored(disk, scope) == (if InScope(p, scope) then Size(disk, p) else 0) + Stored(disk - {p}, scope)
    ensures forall q :: q != p ==> Size(disk - {p}, q) == Size(disk, q)
    ensures Size(disk - {p}, p) == 0
  {
    if p in disk {
      StoredPick(disk, p, scope);
    } else {
      assert disk - {p} == disk;
    }
  }

  lemma {:induction false} StoredMonotone(small: map<Path, nat>, big: map<Path, nat>, scope: Scope)
    requires forall p :: Size(small, p) <= Size(big, p)
    ensures Stored(small, scope) <= Stored(big, scope)
    decreases small.Keys
  {
    if small != map[] {
      var p :| p in small;
      StoredDrop(small, p, scope);
      StoredDrop(big, p, scope);
      forall q
        ensures Size(small - {p}, q) <= Size(big - {p}, q)
      {
        assert Size(small, q) <= Size(big, q);
      }
      StoredMonotone(small - {p}, big - {p}, scope);
      assert Size(small, p) <= Size(big, p);
    }
  }

  ghost function Plus(a: map<Path, nat>, b: map<Path, nat>): map<Path, nat> {
    map p | p in a.Keys + b.Keys :: Size(a, p) + Size(b, p)
  }

  lemma PlusDrop(a: map<Path, nat>, b: map<Path, nat>, p: Path)
    ensures Plus(a - {p}, b - {p}) == Plus(a, b) - {p}
    ensures Size(Plus(a, b), p) == Size(a, p) + Size(b, p)
    ensures p in a.Keys + b.Keys ==> (a - {p}).Keys + (b - {p}).Keys < a.Keys + b.Keys
  {
    if p in a.Keys + b.Keys {
      assert p !in (a - {p}).Keys + (b - {p}).Keys;
    }
  }

  lemma {:induction false} StoredPlus(a: map<Path, nat>, b: map<Path, nat>, scope: Scope)
    ensures Stored(Plus(a, b), scope) == Stored(a, scope) + Stored(b, scope)
    decreases a.Keys + b.Keys
  {
    if a.Keys + b.Keys == {} {
      assert a == map[] && b == map[] && Plus(a, b) == map[];
    } else {
      var p :| p in a.Keys + b.Keys;
      StoredDrop(a, p, scope);
      StoredDrop(b, p, scope);
      StoredDrop(Plus(a, b), p, scope);
      PlusDrop(a, b, p);
      StoredPlus(a - {p}, b - {p}, scope);
    }
  }

  // ---------------------------------------------------------------- declared files

  /** One file an intent on record declares. */
  datatype Claim = Claim(id: Id, index: nat, path: Path, bytes: nat)

  ghost function ClaimsOf(id: Id, input: Input, n: nat): set<Claim>
    requires n <= |input.files|
  {
    set k | 0 <= k < n :: Claim(id, k, PathOf(input, k), input.files[k].size)
  }

  ghost function Claims(records: map<Id, Record>): set<Claim> {
    set id, k | id in records && 0 <= k < |records[id].input.files| ::
      Claim(id, k, PathOf(records[id].input, k), records[id].input.files[k].size)
  }

  ghost function Sum(claims: set<Claim>): nat {
    if claims == {} then 0
    else
      var c :| c in claims;
      c.bytes + Sum(claims - {c})
  }

  ghost function At(claims: set<Claim>, p: Path): set<Claim> {
    set c | c in claims && c.path == p
  }

  ghost function In(claims: set<Claim>, scope: Scope): set<Claim> {
    set c | c in claims && InScope(c.path, scope)
  }

  lemma {:induction false} SumPick(claims: set<Claim>, c: Claim)
    requires c in claims
    ensures Sum(claims) == c.bytes + Sum(claims - {c})
  {
    var d :| d in claims && Sum(claims) == d.bytes + Sum(claims - {d});
    if d != c {
      SumPick(claims - {d}, c);
      SumPick(claims - {c}, d);
      assert claims - {d} - {c} == claims - {c} - {d};
    }
  }

  lemma {:induction false} SumUnion(a: set<Claim>, b: set<Claim>)
    requires a !! b
    ensures Sum(a + b) == Sum(a) + Sum(b)
  {
    if a == {} {
      assert a + b == b;
    } else {
      var c :| c in a;
      SumPick(a, c);
      SumPick(a + b, c);
      SumUnion(a - {c}, b);
      assert a + b - {c} == (a - {c}) + b;
    }
  }

  lemma SumMonotone(a: set<Claim>, b: set<Claim>)
    requires a <= b
    ensures Sum(a) <= Sum(b)
  {
    SumUnion(a, b - a);
    assert a + (b - a) == b;
  }

  /** Declared bytes, path by path. */
  ghost function Demand(claims: set<Claim>): map<Path, nat> {
    map p | p in (set c | c in claims :: c.path) :: Sum(At(claims, p))
  }

  lemma DemandAt(claims: set<Claim>, p: Path)
    ensures Size(Demand(claims), p) == Sum(At(claims, p))
  {
    if p !in Demand(claims) {
      assert At(claims, p) == {};
    }
  }

  lemma DemandDrop(claims: set<Claim>, c: Claim, p: Path)
    requires c in claims
    ensures Size(Demand(claims), p) == Size(Demand(claims - {c}), p) + if p == c.path then c.bytes else 0
  {
    DemandAt(claims, p);
    DemandAt(claims - {c}, p);
    if p == c.path {
      SumPick(At(claims, p), c);
      assert At(claims - {c}, p) == At(claims, p) - {c};
    } else {
      assert At(claims - {c}, p) == At(claims, p);
    }
  }

  lemma {:induction false} DemandSums(claims: set<Claim>, scope: Scope)
    ensures Stored(Demand(claims), scope) == Sum(In(claims, scope))
  {
    if claims == {} {
      assert Demand(claims) == map[] && In(claims, scope) == {};
    } else {
      var c :| c in claims;
      DemandSums(claims - {c}, scope);
      forall p
        ensures Size(Demand(claims), p) == Size(Demand(claims - {c}), p) + if p == c.path then c.bytes else 0
      {
        DemandDrop(claims, c, p);
      }
      DropOne(Demand(claims), Demand(claims - {c}), c.path, c.bytes, scope);
      if InScope(c.path, scope) {
        SumPick(In(claims, scope), c);
        assert In(claims - {c}, scope) == In(claims, scope) - {c};
      } else {
        assert In(claims - {c}, scope) == In(claims, scope);
      }
    }
  }

  lemma SameStored(a: map<Path, nat>, b: map<Path, nat>, scope: Scope)
    requires forall p :: Size(a, p) == Size(b, p)
    ensures Stored(a, scope) == Stored(b, scope)
  {
    StoredMonotone(a, b, scope);
    StoredMonotone(b, a, scope);
  }

  /** Directories that differ at one path. */
  lemma DropOne(a: map<Path, nat>, b: map<Path, nat>, p: Path, bytes: int, scope: Scope)
    requires forall q :: Size(a, q) == Size(b, q) + if q == p then bytes else 0
    ensures Stored(a, scope) == Stored(b, scope) + if InScope(p, scope) then bytes else 0
  {
    StoredDrop(a, p, scope);
    StoredDrop(b, p, scope);
    forall q
      ensures Size(a - {p}, q) == Size(b - {p}, q)
    {
      assert Size(a, q) == Size(b, q) + if q == p then bytes else 0;
    }
    SameStored(a - {p}, b - {p}, scope);
    assert Size(a, p) == Size(b, p) + bytes;
  }

  // ---------------------------------------------------------------- declared and reserved bytes

  lemma {:induction false} ReservedPick(records: map<Id, Record>, id: Id, scope: Scope)
    requires id in records
    ensures Reserved(records, scope) ==
      (if Counts(records[id].input, scope) then Total(records[id].input.files) else 0) + Reserved(records - {id}, scope)
    decreases |records|
  {
    var q :| q in records && Reserved(records, scope) ==
      (if Counts(records[q].input, scope) then Total(records[q].input.files) else 0) + Reserved(records - {q}, scope);
    if q != id {
      ReservedPick(records - {q}, id, scope);
      ReservedPick(records - {id}, q, scope);
      assert records - {q} - {id} == records - {id} - {q};
    }
  }

  lemma {:induction false} SumOfInput(id: Id, input: Input, n: nat)
    requires n <= |input.files|
    ensures Sum(ClaimsOf(id, input, n)) == Total(input.files[..n])
  {
    if n > 0 {
      var last := Claim(id, n - 1, PathOf(input, n - 1), input.files[n - 1].size);
      SumOfInput(id, input, n - 1);
      SumPick(ClaimsOf(id, input, n), last);
      assert ClaimsOf(id, input, n) - {last} == ClaimsOf(id, input, n - 1);
      assert input.files[..n][..n - 1] == input.files[..n - 1];
    }
  }

  /** What an intent declares in a directory: everything, or nothing. */
  lemma InputIn(id: Id, input: Input, scope: Scope)
    ensures Sum(In(ClaimsOf(id, input, |input.files|), scope)) == if Within(input, scope) then Total(input.files) else 0
  {
    var claims := ClaimsOf(id, input, |input.files|);
    if Within(input, scope) {
      assert In(claims, scope) == claims;
      SumOfInput(id, input, |input.files|);
      assert input.files[..|input.files|] == input.files;
    } else {
      assert In(claims, scope) == {};
    }
  }

  lemma ClaimsWith(records: map<Id, Record>, id: Id, record: Record)
    requires id !in records
    ensures Claims(records[id := record]) == Claims(records) + ClaimsOf(id, record.input, |record.input.files|)
    ensures Claims(records) !! ClaimsOf(id, record.input, |record.input.files|)
  {
    var more := records[id := record];
    forall c | c in Claims(records)
      ensures c in Claims(more)
    {
      assert c.id in more && more[c.id] == records[c.id];
    }
    forall c | c in ClaimsOf(id, record.input, |record.input.files|)
      ensures c in Claims(more)
    {
      assert more[id] == record;
    }
  }

  lemma SumIn(a: set<Claim>, b: set<Claim>, scope: Scope)
    requires a !! b
    ensures Sum(In(a + b, scope)) == Sum(In(a, scope)) + Sum(In(b, scope))
  {
    SumUnion(In(a, scope), In(b, scope));
    assert In(a + b, scope) == In(a, scope) + In(b, scope);
  }

  /** The check counts at least what is declared in the directory. */
  lemma {:induction false} DeclaredIsReserved(records: map<Id, Record>, scope: Scope)
    ensures Sum(In(Claims(records), scope)) <= Reserved(records, scope)
    decreases |records|
  {
    if records == map[] {
      assert In(Claims(records), scope) == {};
    } else {
      var id :| id in records;
      var rest, input := records - {id}, records[id].input;
      var own := ClaimsOf(id, input, |input.files|);
      assert rest[id := records[id]] == records;
      ClaimsWith(rest, id, records[id]);
      SumIn(Claims(rest), own, scope);
      InputIn(id, input, scope);
      ReservedPick(records, id, scope);
      DeclaredIsReserved(rest, scope);
    }
  }

  // ---------------------------------------------------------------- what a directory has to hold

  /** Declared files that have been staged, and those that have not. */
  ghost function Placed(s: State): set<Claim> {
    set c | c in Claims(s.records) && (c.id, c.index) in s.staged
  }

  ghost function Due(s: State): set<Claim> {
    set c | c in Claims(s.records) && (c.id, c.index) !in s.staged
  }

  function Max(a: nat, b: nat): nat {
    if a < b then b else a
  }

  /** The bytes to set aside at a path: for what is there, or what its staged files may put back,
      whichever is more; and for every file still to be staged. */
  ghost function Weight(s: State, p: Path): nat {
    Max(Size(s.disk, p), Sum(At(Placed(s), p))) + Sum(At(Due(s), p))
  }

  ghost function Weights(s: State): map<Path, nat> {
    map p | p in s.disk.Keys + (set c | c in Claims(s.records) :: c.path) :: Weight(s, p)
  }

  ghost function Load(s: State, scope: Scope): nat {
    Stored(Weights(s), scope)
  }

  ghost predicate Room(s: State, scope: Scope, extra: nat) {
    Load(s, scope) + extra <= Ceiling(scope)
  }

  ghost predicate QuotasHold(s: State) {
    forall scope :: Room(s, scope, 0)
  }

  lemma WeightsAt(s: State, p: Path)
    ensures Size(Weights(s), p) == Weight(s, p)
  {
    if p !in Weights(s) {
      assert At(Placed(s), p) == {} && At(Due(s), p) == {};
    }
  }

  lemma PlacedAndDue(s: State, p: Path)
    ensures Sum(At(Claims(s.records), p)) == Sum(At(Placed(s), p)) + Sum(At(Due(s), p))
  {
    SumUnion(At(Placed(s), p), At(Due(s), p));
    assert At(Claims(s.records), p) == At(Placed(s), p) + At(Due(s), p);
  }

  /** In plain numbers: the stored bytes and all the bytes still to be staged are within the load,
      also where files on disk or several intents share a path. */
  lemma StoredPlusUnstaged(s: State, scope: Scope)
    ensures Stored(s.disk, scope) + Sum(In(Due(s), scope)) <= Load(s, scope)
  {
    forall p
      ensures Size(Plus(s.disk, Demand(Due(s))), p) <= Size(Weights(s), p)
    {
      WeightsAt(s, p);
      DemandAt(Due(s), p);
    }
    StoredMonotone(Plus(s.disk, Demand(Due(s))), Weights(s), scope);
    StoredPlus(s.disk, Demand(Due(s)), scope);
    DemandSums(Due(s), scope);
  }

  /** `disk` may come about: every file is there already, or staging some intent may put it there. */
  ghost predicate MayHold(s: State, disk: map<Path, nat>) {
    forall p :: p in disk ==>
      disk[p] <= Size(s.disk, p) || exists c :: c in Claims(s.records) && c.path == p && disk[p] <= c.bytes
  }

  lemma ClaimIsWeighed(s: State, c: Claim)
    requires c in Claims(s.records)
    ensures c.bytes <= Weight(s, c.path)
  {
    PlacedAndDue(s, c.path);
    SumPick(At(Claims(s.records), c.path), c);
  }

  /** Whichever of the intents on record are staged, and whatever is deleted: the load bounds what
      a directory comes to hold. */
  lemma AnyStagingIsWithinLoad(s: State, disk: map<Path, nat>, scope: Scope)
    requires MayHold(s, disk)
    ensures Stored(disk, scope) <= Load(s, scope)
  {
    forall p
      ensures Size(disk, p) <= Size(Weights(s), p)
    {
      WeightsAt(s, p);
      if p in disk && disk[p] > Size(s.disk, p) {
        var c :| c in Claims(s.records) && c.path == p && disk[p] <= c.bytes;
        ClaimIsWeighed(s, c);
      }
    }
    StoredMonotone(disk, Weights(s), scope);
  }

  // ---------------------------------------------------------------- what the locked call knows

  /** Since the snapshot `active` was taken, records only disappeared; and what a path has to hold
      was there all the time or is declared by one of them. */
  ghost predicate Known(s: State, active: map<Id, Record>) {
    && Claims(s.records) <= Claims(active)
    && forall p :: KnownAt(s, active, p)
  }

  ghost predicate KnownAt(s: State, active: map<Id, Record>, p: Path) {
    Weight(s, p) <= Size(s.still, p) + Sum(At(Claims(active), p))
  }

  /** The accounting behind the check. */
  lemma Accounting(s: State, active: map<Id, Record>, scope: Scope)
    requires Known(s, active)
    ensures Load(s, scope) <= Stored(s.still, scope) + Reserved(active, scope)
  {
    var bound := Plus(s.still, Demand(Claims(active)));
    forall p
      ensures Size(Weights(s), p) <= Size(bound, p)
    {
      WeightsAt(s, p);
      DemandAt(Claims(active), p);
      assert KnownAt(s, active, p);
    }
    StoredMonotone(Weights(s), bound, scope);
    StoredPlus(s.still, Demand(Claims(active)), scope);
    DemandSums(Claims(active), scope);
    DeclaredIsReserved(active, scope);
  }

  /** A check that passes leaves room for the new intent, although the walk it relies on took
      place while files came and went. */
  lemma CheckGivesRoom(s: State, active: map<Id, Record>, scope: Scope, stored: nat, extra: nat)
    requires Known(s, active) && stored >= Stored(s.still, scope)
    requires stored + Reserved(active, scope) + extra <= Ceiling(scope)
    ensures Room(s, scope, extra)
  {
    Accounting(s, active, scope);
  }

  // ---------------------------------------------------------------- steps by their weights

  ghost predicate Lighter(s: State, s': State) {
    forall p :: Weight(s', p) <= Weight(s, p)
  }

  lemma LighterKeepsRoom(s: State, s': State, scope: Scope, extra: nat)
    requires Lighter(s, s') && Room(s, scope, extra)
    ensures Room(s', scope, extra)
  {
    forall p
      ensures Size(Weights(s'), p) <= Size(Weights(s), p)
    {
      WeightsAt(s, p);
      WeightsAt(s', p);
    }
    StoredMonotone(Weights(s'), Weights(s), scope);
  }

  /** A step that changes the weight of one path. */
  lemma LoadChange(s: State, s': State, p: Path, scope: Scope)
    requires forall q :: q != p ==> Weight(s', q) == Weight(s, q)
    ensures Load(s', scope) == Load(s, scope) + if InScope(p, scope) then Weight(s', p) - Weight(s, p) else 0
  {
    forall q
      ensures Size(Weights(s'), q) == Size(Weights(s), q) + if q == p then Weight(s', p) - Weight(s, p) else 0
    {
      WeightsAt(s, q);
      WeightsAt(s', q);
    }
    DropOne(Weights(s'), Weights(s), p, Weight(s', p) - Weight(s, p), scope);
  }

  /** What a new intent declares comes on top. */
  lemma CommitWeighs(s: State, s': State, id: Id, record: Record, p: Path)
    requires id !in s.records && (forall c :: c in s.staged ==> c.0 != id)
    requires s'.records == s.records[id := record] && s'.disk == s.disk && s'.staged == s.staged
    ensures Weight(s', p) == Weight(s, p) + Sum(At(ClaimsOf(id, record.input, |record.input.files|), p))
  {
    var own := ClaimsOf(id, record.input, |record.input.files|);
    ClaimsWith(s.records, id, record);
    assert Placed(s') == Placed(s);
    assert Due(s') == Due(s) + own;
    assert At(Due(s'), p) == At(Due(s), p) + At(own, p);
    SumUnion(At(Due(s), p), At(own, p));
  }

  lemma CommitLoads(s: State, s': State, id: Id, record: Record, scope: Scope)
    requires id !in s.records && (forall c :: c in s.staged ==> c.0 != id)
    requires s'.records == s.records[id := record] && s'.disk == s.disk && s'.staged == s.staged
    ensures Load(s', scope) == Load(s, scope) + if Within(record.input, scope) then Total(record.input.files) else 0
  {
    var own := ClaimsOf(id, record.input, |record.input.files|);
    forall p
      ensures Size(Weights(s'), p) == Size(Plus(Weights(s), Demand(own)), p)
    {
      WeightsAt(s, p);
      WeightsAt(s', p);
      DemandAt(own, p);
      CommitWeighs(s, s', id, record, p);
    }
    SameStored(Weights(s'), Plus(Weights(s), Demand(own)), scope);
    StoredPlus(Weights(s), Demand(own), scope);
    DemandSums(own, scope);
    InputIn(id, record.input, scope);
  }

  /** Committing an intent both of whose ceilings have room keeps every quota. */
  lemma CommitKeepsQuotas(s: State, s': State, id: Id, record: Record)
    requires QuotasHold(s) && id !in s.records && (forall c :: c in s.staged ==> c.0 != id)
    requires s'.records == s.records[id := record] && s'.disk == s.disk && s'.staged == s.staged
    requires Room(s, RunScope(record.input.space, record.input.run), Total(record.input.files))
    requires Room(s, SpaceScope(record.input.space), Total(record.input.files))
    ensures QuotasHold(s')
  {
    forall scope
      ensures Room(s', scope, 0)
    {
      CommitLoads(s, s', id, record, scope);
      assert Room(s, scope, 0);
    }
  }

  // ---------------------------------------------------------------- the invariant

  /** The promise tail: calls are served one at a time, in the order they arrived. */
  ghost predicate OneAtATime(s: State) {
    forall i, j :: 0 <= i < j < |s.calls| && !s.calls[j].phase.Waiting? ==> s.calls[i].phase.Done?
  }

  ghost predicate PreparesTrace(s: State) {
    && (forall id :: id in s.records ==> id in s.issued)
    && (forall c :: c in s.staged ==> c.0 in s.issued)
    && forall k :: 0 <= k < |s.prepares| ==>
         var p := s.prepares[k];
         p.id in s.issued && (p.id in s.records ==> s.records[p.id].input == p.input)
  }

  ghost predicate CallKnows(s: State, c: Call) {
    match c.phase
    case WalkingRun(active) => Known(s, active)
    case WalkingSpace(active) =>
      Known(s, active) && Room(s, RunScope(c.input.space, c.input.run), Total(c.input.files))
    case _ => true
  }

  ghost predicate Invariant(s: State) {
    && QuotasHold(s) && OneAtATime(s) && PreparesTrace(s)
    && forall k :: 0 <= k < |s.calls| ==> CallKnows(s, s.calls[k])
  }

  /** Steps that add no claim and no weight; a path that was touched holds no more than is claimed. */
  ghost predicate Quiet(s: State, s': State) {
    && Claims(s'.records) <= Claims(s.records)
    && forall p :: QuietAt(s, s', p)
  }

  ghost predicate QuietAt(s: State, s': State, p: Path) {
    && Weight(s', p) <= Weight(s, p)
    && (Size(s'.still, p) == Size(s.still, p) || Weight(s', p) <= Sum(At(Claims(s.records), p)))
  }

  lemma QuietIsLighter(s: State, s': State)
    requires Quiet(s, s')
    ensures Lighter(s, s')
  {
    forall p
      ensures Weight(s', p) <= Weight(s, p)
    {
      assert QuietAt(s, s', p);
    }
  }

  lemma ClaimedIsKnown(s: State, active: map<Id, Record>, p: Path)
    requires Claims(s.records) <= Claims(active)
    ensures Sum(At(Claims(s.records), p)) <= Sum(At(Claims(active), p))
  {
    SumMonotone(At(Claims(s.records), p), At(Claims(active), p));
  }

  lemma QuietKeepsKnowledge(s: State, s': State, active: map<Id, Record>)
    requires Quiet(s, s') && Known(s, active)
    ensures Known(s', active)
  {
    forall p
      ensures KnownAt(s', active, p)
    {
      assert QuietAt(s, s', p) && KnownAt(s, active, p);
      ClaimedIsKnown(s, active, p);
    }
  }

  lemma QuietKeepsCallKnows(s: State, s': State, c: Call)
    requires Quiet(s, s') && CallKnows(s, c)
    ensures CallKnows(s', c)
  {
    QuietIsLighter(s, s');
    match c.phase
    case WalkingRun(active) => QuietKeepsKnowledge(s, s', active);
    case WalkingSpace(active) =>
      QuietKeepsKnowledge(s, s', active);
      LighterKeepsRoom(s, s', RunScope(c.input.space, c.input.run), Total(c.input.files));
    case _ =>
  }

  ghost predicate SameFiles(s: State, s': State) {
    Claims(s'.records) == Claims(s.records) && s'.disk == s.disk && s'.staged == s.staged
  }

  lemma SameFilesWeigh(s: State, s': State)
    requires SameFiles(s, s')
    ensures forall p :: Weight(s', p) == Weight(s, p)
    ensures Lighter(s, s')
  {
    forall p
      ensures Weight(s', p) == Weight(s, p)
    {
      assert Placed(s') == Placed(s) && Due(s') == Due(s);
    }
  }

  lemma SameFilesQuiet(s: State, s': State)
    requires SameFiles(s, s') && s'.still == s.still
    ensures Quiet(s, s')
  {
    SameFilesWeigh(s, s');
    forall p
      ensures QuietAt(s, s', p)
    {
    }
  }

  lemma PreparedWithout(s: State, k: nat)
    requires PreparesTrace(s) && k < |s.prepares|
    ensures PreparesTrace(s.(prepares := Without(s.prepares, k)))
  {
    var rest := Without(s.prepares, k);
    assert forall m :: 0 <= m < |rest| ==> rest[m] == s.prepares[if m < k then m else m + 1];
  }

  /** Rewriting one record without touching what it was issued for. */
  lemma RewriteIsQuiet(s: State, id: Id, record: Record)
    requires PreparesTrace(s) && id in s.records && record.input == s.records[id].input
    ensures var s' := s.(records := s.records[id := record]); SameFiles(s, s') && PreparesTrace(s')
  {
    var s' := s.(records := s.records[id := record]);
    assert forall i :: i in s.records ==> i in s'.records && s'.records[i].input == s.records[i].input;
    assert s'.records.Keys == s.records.Keys;
    assert forall c :: c in Claims(s.records) <==> c in Claims(s'.records);
  }

  lemma CommitAcceptSameFiles(s: State, accept: nat, now: int)
    requires PreparesTrace(s) && accept < |s.accepts|
    ensures var s' := AfterCommitAccept(s, accept, now);
      SameFiles(s, s') && PreparesTrace(s') && s'.still == s.still
  {
    var a := s.accepts[accept];
    if a.id in s.records {
      RewriteIsQuiet(s, a.id, AcceptInto(s.records[a.id], a, now));
    }
  }

  lemma FinishSameFiles(s: State, k: nat, now: int)
    requires PreparesTrace(s) && k < |s.prepares|
    ensures var s' := AfterFinishPrepare(s, k, now);
      SameFiles(s, s') && PreparesTrace(s') && s'.still == s.still
  {
    var rest := s.(prepares := Without(s.prepares, k));
    var id := s.prepares[k].id;
    PreparedWithout(s, k);
    if id in s.records {
      RewriteIsQuiet(rest, id, s.records[id].(progress := Prepared, updatedAt := now));
    }
  }

  /** Steps that leave the files, what is declared and what is staged alone. */
  lemma BookkeepingSameFiles(s: State, e: Event)
    requires PreparesTrace(s) && Enabled(s, e) && !Locked(e) && !e.Stage? && !e.Unlink? && !e.Remove?
    ensures SameFiles(s, Next(s, e)) && PreparesTrace(Next(s, e)) && Next(s, e).still == s.still
  {
    match e
    case BeginAccept(id, _, _, _, _, _, now) =>
      if id in s.records {
        RewriteIsQuiet(s, id, s.records[id].(updatedAt := now));
      }
    case CommitAccept(accept, now) => CommitAcceptSameFiles(s, accept, now);
    case BeginPrepare(id, input, now) => BeginPrepareTraces(s, id, input, now);
    case WalkedPrepare(k, _, _) => PreparedWithout(s, k);
    case FinishPrepare(k, now) => FinishSameFiles(s, k, now);
    case DropPrepare(k) => PreparedWithout(s, k);
    case Arrive(_) =>
  }

  lemma BeginPrepareTraces(s: State, id: Id, input: Input, now: int)
    requires PreparesTrace(s)
    ensures var s' := AfterBeginPrepare(s, id, input, now);
      SameFiles(s, s') && PreparesTrace(s') && s'.still == s.still
  {
    var s' := AfterBeginPrepare(s, id, input, now);
    if s' != s {
      assert s'.prepares[..|s.prepares|] == s.prepares;
    }
  }

  lemma UnlinkIsQuiet(s: State, path: Path)
    ensures Quiet(s, Next(s, Unlink(path)))
  {
    var s' := Next(s, Unlink(path));
    forall p
      ensures QuietAt(s, s', p)
    {
      assert Placed(s') == Placed(s) && Due(s') == Due(s);
      PlacedAndDue(s, p);
    }
  }

  lemma RemoveIsQuiet(s: State, id: Id)
    ensures Quiet(s, Next(s, Remove(id)))
  {
    var s' := Next(s, Remove(id));
    assert Claims(s'.records) <= Claims(s.records);
    forall p
      ensures QuietAt(s, s', p)
    {
      SumMonotone(At(Placed(s'), p), At(Placed(s), p));
      SumMonotone(At(Due(s'), p), At(Due(s), p));
    }
  }

  lemma UnlockedIsQuiet(s: State, e: Event)
    requires PreparesTrace(s) && Enabled(s, e) && !Locked(e) && !e.Stage?
    ensures Quiet(s, Next(s, e)) && PreparesTrace(Next(s, e))
  {
    if e.Unlink? {
      UnlinkIsQuiet(s, e.path);
    } else if e.Remove? {
      RemoveIsQuiet(s, e.id);
    } else {
      BookkeepingSameFiles(s, e);
      SameFilesQuiet(s, Next(s, e));
    }
  }

  lemma UnlockedCalls(s: State, e: Event)
    requires Enabled(s, e) && !Locked(e)
    ensures var calls := Next(s, e).calls;
      |s.calls| <= |calls| && calls[..|s.calls|] == s.calls
      && forall k :: |s.calls| <= k < |calls| ==> calls[k].phase.Waiting?
  {
    if !e.Remove? && !e.Arrive? {
      UnlockedRewrites(s, e);
    }
  }

  lemma UnlockedKeepsInvariant(s: State, e: Event)
    requires Invariant(s) && Enabled(s, e) && !Locked(e) && !e.Stage?
    ensures Invariant(Next(s, e))
  {
    var s' := Next(s, e);
    UnlockedIsQuiet(s, e);
    UnlockedCalls(s, e);
    QuietIsLighter(s, s');
    forall scope
      ensures Room(s', scope, 0)
    {
      assert Room(s, scope, 0);
      LighterKeepsRoom(s, s', scope, 0);
    }
    forall k | 0 <= k < |s'.calls|
      ensures CallKnows(s', s'.calls[k])
    {
      if k < |s.calls| {
        assert s'.calls[k] == s.calls[k];
        QuietKeepsCallKnows(s, s', s.calls[k]);
      }
    }
    LongerQueue(s, s');
  }

  lemma LongerQueue(s: State, s': State)
    requires OneAtATime(s) && |s.calls| <= |s'.calls| && s'.calls[..|s.calls|] == s.calls
    requires forall k :: |s.calls| <= k < |s'.calls| ==> s'.calls[k].phase.Waiting?
    ensures OneAtATime(s')
  {
    assert forall k :: 0 <= k < |s.calls| ==> s'.calls[k] == s'.calls[..|s.calls|][k];
  }

  /** Apart from the call served, every call is done or has not begun. */
  lemma OthersIdle(s: State, call: nat, k: nat)
    requires OneAtATime(s) && call < |s.calls| && k < |s.calls| && k != call
    requires (!s.calls[call].phase.Waiting? && !s.calls[call].phase.Done?) || Turn(s, call)
    ensures s.calls[k].phase.Waiting? || s.calls[k].phase.Done?
  {
  }

  lemma LockedKeepsOrder(s: State, s': State, call: nat, phase: Phase)
    requires OneAtATime(s) && call < |s.calls| && !phase.Waiting?
    requires (!s.calls[call].phase.Waiting? && !s.calls[call].phase.Done?) || Turn(s, call)
    requires s'.calls == s.calls[call := s.calls[call].(phase := phase)]
    ensures OneAtATime(s')
  {
    forall i, j | 0 <= i < j < |s'.calls| && !s'.calls[j].phase.Waiting?
      ensures s'.calls[i].phase.Done?
    {
      if j == call {
        assert call > 0 && s.calls[call].phase.Waiting? ==> s.calls[call - 1].phase.Done?;
      }
    }
  }

  ghost predicate SameBut(s: State, s': State) {
    s'.records == s.records && s'.disk == s.disk && s'.prepares == s.prepares && s'.issued == s.issued && s'.staged == s.staged
  }

  lemma SameButKeeps(s: State, s': State)
    requires QuotasHold(s) && PreparesTrace(s) && SameBut(s, s')
    ensures QuotasHold(s') && PreparesTrace(s') && Lighter(s, s')
  {
    SameFilesWeigh(s, s');
    forall scope
      ensures Room(s', scope, 0)
    {
      assert Room(s, scope, 0);
      LighterKeepsRoom(s, s', scope, 0);
    }
  }

  lemma EnterShape(s: State, call: nat)
    requires call < |s.calls|
    ensures var s' := AfterEnter(s, call); var phase := s'.calls[call].phase;
      SameBut(s, s') && (phase.Done? || (phase == WalkingRun(s.records) && s'.still == s.disk))
  {
  }

  /** A snapshot knows the state it is taken of. */
  lemma SnapshotKnows(s: State)
    requires s.still == s.disk
    ensures Known(s, s.records)
  {
    forall p
      ensures KnownAt(s, s.records, p)
    {
      PlacedAndDue(s, p);
    }
  }

  lemma EnterKeepsInvariant(s: State, call: nat)
    requires Invariant(s) && Enabled(s, Enter(call))
    ensures var s' := AfterEnter(s, call); QuotasHold(s') && PreparesTrace(s') && CallKnows(s', s'.calls[call])
  {
    var s' := AfterEnter(s, call);
    EnterShape(s, call);
    SameButKeeps(s, s');
    if s'.calls[call].phase.WalkingRun? {
      SnapshotKnows(s');
    }
  }

  lemma WalkedRunKeepsInvariant(s: State, call: nat, stored: nat)
    requires Invariant(s) && Enabled(s, WalkedRun(call, stored))
    ensures var s' := AfterWalkedRun(s, call, stored); QuotasHold(s') && PreparesTrace(s') && CallKnows(s', s'.calls[call])
  {
    var s' := AfterWalkedRun(s, call, stored);
    var c := s.calls[call];
    SameButKeeps(s, s');
    assert CallKnows(s, c);
    if s'.calls[call].phase.WalkingSpace? {
      var scope := RunScope(c.input.space, c.input.run);
      CheckGivesRoom(s, c.phase.active, scope, stored, Total(c.input.files));
      LighterKeepsRoom(s, s', scope, Total(c.input.files));
      SameFilesQuiet(s, s');
      QuietKeepsKnowledge(s, s', c.phase.active);
    }
  }

  /** What the second check leaves: a new record under a fresh id, provided both ceilings had room. */
  lemma WalkedSpaceShape(s: State, call: nat, stored: nat, id: Id, now: int)
    requires Enabled(s, WalkedSpace(call, stored, id, now))
    ensures var s', c := AfterWalkedSpace(s, call, stored, id, now), s.calls[call]; var scope := SpaceScope(c.input.space);
      && s'.disk == s.disk && s'.staged == s.staged && s'.prepares == s.prepares
      && if s'.calls[call].phase.Persisting? then
           && stored + Reserved(c.phase.active, scope) + Total(c.input.files) <= Ceiling(scope)
           && s'.records == s.records[id := NewRecord(c.input, now)] && s'.issued == s.issued + {id}
         else s'.calls[call].phase.Done? && SameBut(s, s')
  {
  }

  lemma CommitTraces(s: State, s': State, id: Id, record: Record)
    requires PreparesTrace(s) && id !in s.issued && s'.records == s.records[id := record] && s'.issued == s.issued + {id}
    requires s'.staged == s.staged && s'.prepares == s.prepares
    ensures PreparesTrace(s') && id !in s.records && forall c :: c in s.staged ==> c.0 != id
  {
  }

  lemma WalkedSpaceKeepsInvariant(s: State, call: nat, stored: nat, id: Id, now: int)
    requires Invariant(s) && Enabled(s, WalkedSpace(call, stored, id, now))
    ensures var s' := AfterWalkedSpace(s, call, stored, id, now);
      QuotasHold(s') && PreparesTrace(s') && CallKnows(s', s'.calls[call])
  {
    var s' := AfterWalkedSpace(s, call, stored, id, now);
    var c := s.calls[call];
    WalkedSpaceShape(s, call, stored, id, now);
    if s'.calls[call].phase.Persisting? {
      assert CallKnows(s, c);
      CommitTraces(s, s', id, NewRecord(c.input, now));
      CheckGivesRoom(s, c.phase.active, SpaceScope(c.input.space), stored, Total(c.input.files));
      CommitKeepsQuotas(s, s', id, NewRecord(c.input, now));
    } else {
      SameButKeeps(s, s');
    }
  }

  lemma LockedKeepsInvariant(s: State, e: Event)
    requires Invariant(s) && Enabled(s, e) && Locked(e)
    ensures Invariant(Next(s, e))
  {
    var s' := Next(s, e);
    var phase := LockedEffect(s, e);
    LockedKeepsOrder(s, s', e.call, phase);
    match e {
      case Enter(call) => EnterKeepsInvariant(s, call);
      case WalkedRun(call, stored) => WalkedRunKeepsInvariant(s, call, stored);
      case WalkedSpace(call, stored, id, now) => WalkedSpaceKeepsInvariant(s, call, stored, id, now);
      case Settle(_, _) => SameButKeeps(s, s');
    }
    forall k | 0 <= k < |s'.calls|
      ensures CallKnows(s', s'.calls[k])
    {
      if k != e.call {
        OthersIdle(s, e.call, k);
      }
    }
  }

  lemma StartInvariant(disk: map<Path, nat>)
    requires forall scope :: Stored(disk, scope) <= Ceiling(scope)
    ensures Invariant(Start(disk))
  {
    var s := Start(disk);
    forall scope
      ensures Room(s, scope, 0)
    {
      assert Placed(s) == {} && Due(s) == {};
      assert forall p :: At({}, p) == {};
      SameStored(Weights(s), disk, scope);
    }
  }

  // ---------------------------------------------------------------- staging

  /** Where a prepare puts its next file. */
  ghost function Target(s: State, k: nat): Path
    requires Enabled(s, Stage(k))
  {
    PathOf(s.prepares[k].input, s.prepares[k].next.value)
  }

  /** What that path will have to hold: what the intents on record declare for it, if the file is
      one of theirs; otherwise the file itself may take more than their staged files did. */
  ghost function StagedWeight(s: State, k: nat): nat
    requires Enabled(s, Stage(k))
  {
    var p, path := s.prepares[k], Target(s, k);
    if p.id in s.records then Sum(At(Claims(s.records), path))
    else Max(p.input.files[p.next.value].size, Sum(At(Placed(s), path))) + Sum(At(Due(s), path))
  }

  /** With the file in place the directory still has room. */
  ghost predicate RoomToStage(s: State, k: nat, scope: Scope, extra: nat)
    requires Enabled(s, Stage(k))
  {
    InScope(Target(s, k), scope) ==>
      Load(s, scope) - Weight(s, Target(s, k)) + StagedWeight(s, k) + extra <= Ceiling(scope)
  }

  /** The file fits under both ceilings that count it.  If an issue call has taken its snapshot, the
      file is also within what the snapshot declares for its path, and leaves the room that the
      call's first check has found. */
  ghost predicate SafeStage(s: State, k: nat)
    requires Enabled(s, Stage(k))
  {
    && RoomToStage(s, k, RunScope(Target(s, k).space, Target(s, k).run), 0)
    && RoomToStage(s, k, SpaceScope(Target(s, k).space), 0)
    && forall c :: 0 <= c < |s.calls| ==> SafeFor(s, k, s.calls[c])
  }

  ghost predicate SafeFor(s: State, k: nat, c: Call)
    requires Enabled(s, Stage(k))
  {
    match c.phase
    case WalkingRun(active) => StagedWeight(s, k) <= Sum(At(Claims(active), Target(s, k)))
    case WalkingSpace(active) =>
      && StagedWeight(s, k) <= Sum(At(Claims(active), Target(s, k)))
      && RoomToStage(s, k, RunScope(c.input.space, c.input.run), Total(c.input.files))
    case _ => true
  }

  lemma OwnFile(s: State, k: nat)
    requires PreparesTrace(s) && Enabled(s, Stage(k)) && s.prepares[k].id in s.records
    ensures var p := s.prepares[k];
      Claim(p.id, p.next.value, Target(s, k), p.input.files[p.next.value].size) in Claims(s.records)
  {
  }

  /** Staging sets the weight of its path and touches no other. */
  lemma StageWeighs(s: State, k: nat)
    requires PreparesTrace(s) && Enabled(s, Stage(k))
    ensures Weight(AfterStage(s, k), Target(s, k)) == StagedWeight(s, k)
    ensures forall q :: q != Target(s, k) ==> Weight(AfterStage(s, k), q) == Weight(s, q)
  {
    var s', p, path := AfterStage(s, k), s.prepares[k], Target(s, k);
    var c := Claim(p.id, p.next.value, path, p.input.files[p.next.value].size);
    forall q | q != path
      ensures Weight(s', q) == Weight(s, q)
    {
      assert At(Placed(s'), q) == At(Placed(s), q) && At(Due(s'), q) == At(Due(s), q);
    }
    if p.id in s.records {
      OwnFile(s, k);
      SumPick(At(Placed(s'), path), c);
      PlacedAndDue(s', path);
    } else {
      assert Placed(s') == Placed(s) && Due(s') == Due(s);
    }
  }

  lemma StageLoads(s: State, k: nat, scope: Scope, extra: nat)
    requires PreparesTrace(s) && Enabled(s, Stage(k)) && Room(s, scope, extra)
    ensures Room(AfterStage(s, k), scope, extra) <==> RoomToStage(s, k, scope, extra)
  {
    StageWeighs(s, k);
    LoadChange(s, AfterStage(s, k), Target(s, k), scope);
  }

  /** Staging keeps the quotas exactly when the file fits under both ceilings that count it. */
  lemma StageKeepsQuotasIff(s: State, k: nat)
    requires QuotasHold(s) && PreparesTrace(s) && Enabled(s, Stage(k))
    ensures var p := Target(s, k);
      QuotasHold(AfterStage(s, k)) <==>
        RoomToStage(s, k, RunScope(p.space, p.run), 0) && RoomToStage(s, k, SpaceScope(p.space), 0)
  {
    var s', p := AfterStage(s, k), Target(s, k);
    forall scope
      ensures Room(s', scope, 0) <==> RoomToStage(s, k, scope, 0)
    {
      assert Room(s, scope, 0);
      StageLoads(s, k, scope, 0);
    }
    if QuotasHold(s') {
      assert Room(s', RunScope(p.space, p.run), 0) && Room(s', SpaceScope(p.space), 0);
    }
    if RoomToStage(s, k, RunScope(p.space, p.run), 0) && RoomToStage(s, k, SpaceScope(p.space), 0) {
      forall scope
        ensures Room(s', scope, 0)
      {
        assert InScope(p, scope) ==> scope == RunScope(p.space, p.run) || scope == SpaceScope(p.space);
        assert RoomToStage(s, k, scope, 0);
      }
    }
  }

  lemma StageKnows(s: State, k: nat, active: map<Id, Record>)
    requires PreparesTrace(s) && Enabled(s, Stage(k)) && Known(s, active)
    ensures Known(AfterStage(s, k), active) <==> StagedWeight(s, k) <= Sum(At(Claims(active), Target(s, k)))
  {
    var s', p := AfterStage(s, k), Target(s, k);
    StageWeighs(s, k);
    assert KnownAt(s', active, p) <==> StagedWeight(s, k) <= Sum(At(Claims(active), p));
    forall q | q != p
      ensures KnownAt(s', active, q)
    {
      assert KnownAt(s, active, q);
    }
  }

  lemma StageSafeFor(s: State, k: nat, c: Call)
    requires PreparesTrace(s) && Enabled(s, Stage(k)) && CallKnows(s, c)
    ensures CallKnows(AfterStage(s, k), c) <==> SafeFor(s, k, c)
  {
    match c.phase
    case WalkingRun(active) => StageKnows(s, k, active);
    case WalkingSpace(active) =>
      StageKnows(s, k, active);
      StageLoads(s, k, RunScope(c.input.space, c.input.run), Total(c.input.files));
    case _ =>
  }

  lemma StageTraces(s: State, k: nat)
    requires PreparesTrace(s) && OneAtATime(s) && Enabled(s, Stage(k))
    ensures var s' := AfterStage(s, k); PreparesTrace(s') && OneAtATime(s') && s'.calls == s.calls
  {
  }

  /** Staging keeps the invariant exactly when it is safe. */
  lemma StageIff(s: State, k: nat)
    requires Invariant(s) && Enabled(s, Stage(k))
    ensures Invariant(AfterStage(s, k)) <==> SafeStage(s, k)
  {
    var s' := AfterStage(s, k);
    StageKeepsQuotasIff(s, k);
    StageTraces(s, k);
    forall c | 0 <= c < |s.calls|
      ensures CallKnows(s', s'.calls[c]) <==> SafeFor(s, k, s.calls[c])
    {
      assert CallKnows(s, s.calls[c]);
      StageSafeFor(s, k, s.calls[c]);
    }
  }

  lemma OwnStageFits(s: State, k: nat, scope: Scope, extra: nat)
    requires PreparesTrace(s) && Enabled(s, Stage(k)) && s.prepares[k].id in s.records && Room(s, scope, extra)
    ensures RoomToStage(s, k, scope, extra)
  {
    PlacedAndDue(s, Target(s, k));
  }

  /** Staging a file of an intent on record is safe. */
  lemma OwnStageIsSafe(s: State, k: nat)
    requires Invariant(s) && Enabled(s, Stage(k)) && s.prepares[k].id in s.records
    ensures SafeStage(s, k)
  {
    var p := Target(s, k);
    assert Room(s, RunScope(p.space, p.run), 0) && Room(s, SpaceScope(p.space), 0);
    OwnStageFits(s, k, RunScope(p.space, p.run), 0);
    OwnStageFits(s, k, SpaceScope(p.space), 0);
    forall c | 0 <= c < |s.calls|
      ensures SafeFor(s, k, s.calls[c])
    {
      OwnStageIsSafeFor(s, k, s.calls[c]);
    }
  }

  lemma OwnStageIsSafeFor(s: State, k: nat, c: Call)
    requires PreparesTrace(s) && Enabled(s, Stage(k)) && s.prepares[k].id in s.records && CallKnows(s, c)
    ensures SafeFor(s, k, c)
  {
    match c.phase
    case WalkingRun(active) => ClaimedIsKnown(s, active, Target(s, k));
    case WalkingSpace(active) =>
      ClaimedIsKnown(s, active, Target(s, k));
      OwnStageFits(s, k, RunScope(c.input.space, c.input.run), Total(c.input.files));
    case _ =>
  }

  // ---------------------------------------------------------------- the theorems

  /** The only steps that can break the quotas are stagings, and only those that are not safe. */
  ghost predicate SafeStep(s: State, e: Event)
    requires Enabled(s, e)
  {
    e.Stage? ==> SafeStage(s, e.prepare)
  }

  lemma InvariantStep(s: State, e: Event)
    requires Invariant(s) && Enabled(s, e)
    ensures Invariant(Next(s, e)) <==> SafeStep(s, e)
  {
    if e.Stage? {
      StageIff(s, e.prepare);
    } else if Locked(e) {
      LockedKeepsInvariant(s, e);
    } else {
      UnlockedKeepsInvariant(s, e);
    }
  }

  ghost predicate SafeStepAt(run: seq<State>, events: seq<Event>, k: nat)
    requires k < |events| && k + 1 < |run|
  {
    Enabled(run[k], events[k]) && SafeStep(run[k], events[k])
  }

  ghost predicate HoldsUpTo(run: seq<State>, n: nat)
    requires n < |run|
  {
    forall k :: 0 <= k <= n ==> Invariant(run[k])
  }

  ghost predicate SafeUpTo(run: seq<State>, events: seq<Event>, n: nat)
    requires n <= |events| && |run| == |events| + 1
  {
    forall k :: 0 <= k < n ==> SafeStepAt(run, events, k)
  }

  lemma HoldsOneMore(run: seq<State>, n: nat)
    requires 0 < n < |run|
    ensures HoldsUpTo(run, n) <==> HoldsUpTo(run, n - 1) && Invariant(run[n])
    ensures HoldsUpTo(run, n - 1) ==> Invariant(run[n - 1])
  {
  }

  lemma SafeOneMore(run: seq<State>, events: seq<Event>, n: nat)
    requires 0 < n <= |events| && |run| == |events| + 1
    ensures SafeUpTo(run, events, n) <==> SafeUpTo(run, events, n - 1) && SafeStepAt(run, events, n - 1)
  {
  }

  /** In every run, however accepts, prepares, consumes and abandons interleave with the awaits of
      the issue calls: calls are served one at a time in arrival order, each knows what it needs, and
      what is stored and still to be staged fits under every ceiling, exactly as long as every file
      staged is safe. */
  lemma {:induction false} NeverOversold(run: seq<State>, events: seq<Event>, n: nat)
    requires IsRun(run, events) && n < |run|
    ensures HoldsUpTo(run, n) <==> SafeUpTo(run, events, n)
  {
    if n == 0 {
      StartInvariant(run[0].disk);
    } else {
      NeverOversold(run, events, n - 1);
      HoldsOneMore(run, n);
      SafeOneMore(run, events, n);
      assert StepAt(run, events, n - 1);
      if Invariant(run[n - 1]) {
        InvariantStep(run[n - 1], events[n - 1]);
      }
    }
  }

  ghost predicate StagesOwnAt(run: seq<State>, events: seq<Event>, k: nat)
    requires k < |events| && k + 1 < |run|
  {
    events[k].Stage? && events[k].prepare < |run[k].prepares| ==> run[k].prepares[events[k].prepare].id in run[k].records
  }

  /** So no quota is oversold in a run that stages only for intents still on record. */
  lemma {:induction false} OwnIntentsNeverOversell(run: seq<State>, events: seq<Event>, n: nat)
    requires IsRun(run, events) && n < |run| && forall k :: 0 <= k < n ==> StagesOwnAt(run, events, k)
    ensures Invariant(run[n])
    ensures forall scope :: Stored(run[n].disk, scope) + Sum(In(Due(run[n]), scope)) <= Ceiling(scope)
  {
    if n == 0 {
      StartInvariant(run[0].disk);
    } else {
      OwnIntentsNeverOversell(run, events, n - 1);
      assert StepAt(run, events, n - 1) && StagesOwnAt(run, events, n - 1);
      if events[n - 1].Stage? {
        OwnStageIsSafe(run[n - 1], events[n - 1].prepare);
      }
      InvariantStep(run[n - 1], events[n - 1]);
    }
    forall scope
      ensures Stored(run[n].disk, scope) + Sum(In(Due(run[n]), scope)) <= Ceiling(scope)
    {
      StoredPlusUnstaged(run[n], scope);
      assert Room(run[n], scope, 0);
    }
  }
}
