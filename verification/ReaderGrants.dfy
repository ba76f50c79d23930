/** Who may read whose memory bank: the grants and their synchronisation with a space's declared
    readers (`packages/hub-daemon/src/memory-bank-grants.ts`, over the grant rows of
    `packages/hub-persistence/src/memory.ts`). */
module ReaderGrants {
  import opened SpaceIds
  import opened Wrappers

  /** Grant ids are fresh; a counter stands in for them. */
  datatype Grant = Grant(id: nat, reader: string, bank: string, owner: string, active: bool, revokedAt: Option<string>)

  // ---------------------------------------------------------------- one grant

  predicate Allows(g: Grant, reader: string, bank: string) {
    g.active && g.reader == reader && g.bank == bank
  }

  /** The first active grant of a bank to a reader, whoever owns it; the number of grants if none. */
  function FindGrant(grants: seq<Grant>, reader: string, bank: string): (k: nat)
    ensures k <= |grants|
    ensures k < |grants| ==> Allows(grants[k], reader, bank)
    ensures forall j :: 0 <= j < k ==> !Allows(grants[j], reader, bank)
  {
    if grants == [] then 0
    else if Allows(grants[0], reader, bank) then 0
    else 1 + FindGrant(grants[1..], reader, bank)
  }

  predicate Served(grants: seq<Grant>, reader: string, bank: string) {
    exists k | 0 <= k < |grants| :: Allows(grants[k], reader, bank)
  }

  /** Ids lose their prefix once in the service and once more in the store. */
  function StoredId(space: string): string {
    Bare(Bare(space))
  }

  /** One grant more, unless the reader has one for the bank. */
  function Upserted(grants: seq<Grant>, id: nat, reader: string, bank: string, owner: string): seq<Grant> {
    if FindGrant(grants, StoredId(reader), bank) < |grants| then grants
    else grants + [Grant(id, StoredId(reader), bank, StoredId(owner), true, None)]
  }

  /** A grant is revoked once. */
  function RevokedGrant(g: Grant, now: string): Grant {
    if g.active then g.(active := false, revokedAt := Some(now)) else g
  }

  function Revoked(grants: seq<Grant>, ids: set<nat>, now: string): seq<Grant> {
    seq(|grants|, k requires 0 <= k < |grants| => if grants[k].id in ids then RevokedGrant(grants[k], now) else grants[k])
  }

  // ---------------------------------------------------------------- a whole sync

  /** The ids given out stay below the counter, and no two grants share one. */
  predicate FreshIds(grants: seq<Grant>, nextId: nat) {
    && (forall k :: 0 <= k < |grants| ==> grants[k].id < nextId)
    && forall j, k :: 0 <= j < k < |grants| ==> grants[j].id != grants[k].id
  }

  function GrantAll(grants: seq<Grant>, nextId: nat, readers: seq<string>, bank: string, owner: string): (seq<Grant>, nat) {
    if readers == [] then (grants, nextId)
    else
      var before := GrantAll(grants, nextId, readers[..|readers| - 1], bank, owner);
      (Upserted(before.0, before.1, readers[|readers| - 1], bank, owner), before.1 + 1)
  }

  predicate Keeps(g: Grant, bank: Option<string>, readers: seq<string>) {
    bank.Some? && bank.value != "" && g.bank == bank.value && g.reader in readers
  }

  /** The active grants of an owner that its declaration no longer asks for. */
  function Outdated(grants: seq<Grant>, owner: string, bank: Option<string>, readers: seq<string>): set<nat> {
    set k | 0 <= k < |grants| && grants[k].active && grants[k].owner == Bare(owner) && !Keeps(grants[k], bank, readers) ::
      grants[k].id
  }

  /** The same grants as they are reported, already revoked. */
  function OutdatedRows(grants: seq<Grant>, owner: string, bank: Option<string>, readers: seq<string>, now: string)
    : seq<Grant>
  {
    if grants == [] then []
    else
      var front, g := OutdatedRows(grants[..|grants| - 1], owner, bank, readers, now), grants[|grants| - 1];
      if g.active && g.owner == Bare(owner) && !Keeps(g, bank, readers) then front + [RevokedGrant(g, now)] else front
  }

  /** The readers asked for, without prefix and without repeats, in order. */
  function Desired(readers: seq<string>): seq<string> {
    if readers == [] then []
    else
      var before := Desired(readers[..|readers| - 1]);
      var last := Bare(readers[|readers| - 1]);
      if last in before then before else before + [last]
  }

  /** What the grants become.  Without a bank, all grants of the owner are revoked. */
  function Synced(grants: seq<Grant>, nextId: nat, owner: string, bank: Option<string>, readers: seq<string>, now: string)
    : (seq<Grant>, nat)
  {
    var desired := Desired(readers);
    var drop := Outdated(grants, Bare(owner), bank, desired);
    if bank.None? || bank.value == "" then (Revoked(grants, drop, now), nextId)
    else
      var g := GrantAll(grants, nextId, desired, bank.value, Bare(owner));
      (Revoked(g.0, drop, now), g.1)
  }

  /** A reader has at most one active grant for a bank. */
  predicate AtMostOne(grants: seq<Grant>) {
    forall j, k :: 0 <= j < k < |grants| && grants[j].active && grants[k].active && grants[j].reader == grants[k].reader ==>
      grants[j].bank != grants[k].bank
  }

  class GrantStore {
    var grants: seq<Grant>
    var nextId: nat

    ghost predicate Valid()
      reads this
    {
      FreshIds(grants, nextId) && AtMostOne(grants)
    }

    constructor ()
      ensures Valid() && grants == []
    {
      grants, nextId := [], 0;
    }

    method Upsert(reader: string, bank: string, owner: string) returns (created: bool)
      requires Valid()
      modifies this
      ensures Valid() && nextId == old(nextId) + 1
      ensures grants == Upserted(old(grants), old(nextId), reader, bank, owner)
      ensures created <==> grants != old(grants)
    {
      var k := FindGrant(grants, StoredId(reader), bank);
      created := k == |grants|;
      if created {
        grants := grants + [Grant(nextId, StoredId(reader), bank, StoredId(owner), true, None)];
      }
      nextId := nextId + 1;
    }

    method Revoke(id: nat, now: string)
      requires Valid()
      modifies this`grants
      ensures Valid() && grants == Revoked(old(grants), {id}, now)
    {
      grants := Revoked(grants, {id}, now);
    }

    /** `granted` are the rows added, `revoked` the rows taken back. */
    method SyncMemoryReadersFromApply(owner: string, bank: Option<string>, readers: seq<string>, now: string)
      returns (granted: seq<Grant>, revoked: seq<Grant>)
      requires Valid()
      modifies this
      ensures Valid()
      ensures (grants, nextId) == Synced(old(grants), old(nextId), owner, bank, readers, now)
      ensures grants == Revoked(old(grants) + granted, Outdated(old(grants), Bare(owner), bank, Desired(readers)), now)
      ensures revoked == OutdatedRows(old(grants), Bare(owner), bank, Desired(readers), now)
    {
      var desired := Desired(readers);
      var existing := grants;
      granted := [];
      if bank.Some? && bank.value != "" {
        granted := GrantDesired(desired, bank.value, owner);
      }
      revoked := RevokeOutdated(existing, owner, bank, desired, now);
    }

    method GrantDesired(desired: seq<string>, bank: string, owner: string) returns (granted: seq<Grant>)
      requires Valid()
      modifies this
      ensures Valid()
      ensures (grants, nextId) == GrantAll(old(grants), old(nextId), desired, bank, Bare(owner))
      ensures grants == old(grants) + granted
    {
      granted := [];
      for i := 0 to |desired|
        invariant Valid()
        invariant (grants, nextId) == GrantAll(old(grants), old(nextId), desired[..i], bank, Bare(owner))
        invariant grants == old(grants) + granted
      {
        assert desired[..i + 1][..i] == desired[..i];
        var created := Upsert(desired[i], bank, Bare(owner));
        if created {
          granted := granted + [grants[|grants| - 1]];
        }
      }
      assert desired[..|desired|] == desired;
    }

    method RevokeOutdated(existing: seq<Grant>, owner: string, bank: Option<string>, desired: seq<string>, now: string)
      returns (revoked: seq<Grant>)
      requires Valid()
      modifies this`grants
      ensures Valid()
      ensures grants == Revoked(old(grants), Outdated(existing, Bare(owner), bank, desired), now)
      ensures revoked == OutdatedRows(existing, Bare(owner), bank, desired, now)
    {
      RevokedNone(grants, now);
      revoked := [];
      for i := 0 to |existing|
        invariant Valid()
        invariant grants == Revoked(old(grants), Outdated(existing[..i], Bare(owner), bank, desired), now)
        invariant revoked == OutdatedRows(existing[..i], Bare(owner), bank, desired, now)
      {
        var g := existing[i];
        assert existing[..i + 1][..i] == existing[..i];
        OutdatedOneMore(existing, i, Bare(owner), bank, desired);
        RevokedOneMore(old(grants), Outdated(existing[..i], Bare(owner), bank, desired), g.id, now);
        if g.active && g.owner == Bare(Bare(owner)) && !Keeps(g, bank, desired) {
          Revoke(g.id, now);
          revoked := revoked + [RevokedGrant(g, now)];
        }
      }
      assert existing[..|existing|] == existing;
    }
  }

  lemma RevokedNone(grants: seq<Grant>, now: string)
    ensures Revoked(grants, {}, now) == grants
  {
  }

  lemma RevokedOneMore(grants: seq<Grant>, ids: set<nat>, id: nat, now: string)
    ensures Revoked(Revoked(grants, ids, now), {id}, now) == Revoked(grants, ids + {id}, now)
  {
  }

  lemma OutdatedOneMore(grants: seq<Grant>, i: nat, owner: string, bank: Option<string>, readers: seq<string>)
    requires i < |grants|
    ensures var before, g := Outdated(grants[..i], owner, bank, readers), grants[i];
      Outdated(grants[..i + 1], owner, bank, readers)
      == if g.active && g.owner == Bare(owner) && !Keeps(g, bank, readers) then before + {g.id} else before
  {
    var now, before := grants[..i + 1], grants[..i];
    assert forall k :: 0 <= k < i ==> now[k] == before[k];
    assert now[i] == grants[i];
  }
}
