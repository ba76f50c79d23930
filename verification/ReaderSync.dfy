/** What a sync of memory readers achieves (`packages/hub-daemon/src/memory-bank-grants.ts`). */
module ReaderSync {
  import opened ReaderGrants
  import opened SpaceIds
  import opened Wrappers

  /** The names of a declaration: none carries the prefix twice. */
  predicate WellNamed(owner: string, readers: seq<string>) {
    PrefixedOnce(owner) && forall k :: 0 <= k < |readers| ==> PrefixedOnce(readers[k])
  }

  /** The schema that readers of a declaration are validated by, and that space ids meet, sees to that. */
  lemma SchemaNamesAreWellNamed(owner: string, readers: seq<string>)
    requires (IsUlid(owner) || IsSpaceId(owner)) && forall k :: 0 <= k < |readers| ==> IsSpaceId(readers[k])
    ensures WellNamed(owner, readers)
  {
    SchemaIdsPrefixedOnce(owner);
    forall k | 0 <= k < |readers|
      ensures PrefixedOnce(readers[k])
    {
      SchemaIdsPrefixedOnce(readers[k]);
    }
  }

  predicate AllBare(readers: seq<string>) {
    forall k :: 0 <= k < |readers| ==> IsBare(readers[k])
  }

  lemma {:induction false} DesiredHas(readers: seq<string>, d: string)
    ensures d in Desired(readers) <==> exists k | 0 <= k < |readers| :: Bare(readers[k]) == d
  {
    if readers != [] {
      var n := |readers| - 1;
      DesiredHas(readers[..n], d);
      if d in Desired(readers[..n]) {
        var k :| 0 <= k < n && Bare(readers[..n][k]) == d;
        assert Bare(readers[k]) == d;
      } else if exists k | 0 <= k < |readers| :: Bare(readers[k]) == d {
        var k :| 0 <= k < |readers| && Bare(readers[k]) == d;
        assert k < n ==> Bare(readers[..n][k]) == d;
      }
    }
  }

  /** No reader is asked for twice. */
  lemma {:induction false} DesiredDistinct(readers: seq<string>)
    ensures forall j, k :: 0 <= j < k < |Desired(readers)| ==> Desired(readers)[j] != Desired(readers)[k]
  {
    if readers != [] {
      DesiredDistinct(readers[..|readers| - 1]);
    }
  }

  lemma DesiredBare(owner: string, readers: seq<string>)
    requires WellNamed(owner, readers)
    ensures AllBare(Desired(readers))
  {
    forall k | 0 <= k < |Desired(readers)|
      ensures IsBare(Desired(readers)[k])
    {
      DesiredHas(readers, Desired(readers)[k]);
    }
  }

  // ---------------------------------------------------------------- granting

  lemma UpsertServes(grants: seq<Grant>, id: nat, reader: string, bank: string, owner: string)
    requires IsBare(reader)
    ensures var after := Upserted(grants, id, reader, bank, owner);
      && Served(after, reader, bank) && (AtMostOne(grants) ==> AtMostOne(after))
      && grants <= after
  {
    var after := Upserted(grants, id, reader, bank, owner);
    var k := FindGrant(grants, reader, bank);
    if k < |grants| {
      assert Allows(after[k], reader, bank);
    } else {
      assert Allows(after[|grants|], reader, bank);
      assert forall j :: 0 <= j < |grants| ==> !Allows(grants[j], reader, bank);
    }
  }

  lemma ServedStays(before: seq<Grant>, after: seq<Grant>, reader: string, bank: string)
    requires before <= after && Served(before, reader, bank)
    ensures Served(after, reader, bank)
  {
    var k :| 0 <= k < |before| && Allows(before[k], reader, bank);
    assert after[k] == before[k];
  }

  /** A row that granting has added. */
  predicate NewRow(g: Grant, nextId: nat, readers: seq<string>, bank: string, owner: string) {
    g.id >= nextId && g.active && g.owner == owner && g.bank == bank && g.reader in readers
  }

  lemma AmongMore(readers: seq<string>)
    requires readers != []
    ensures forall reader :: reader in readers[..|readers| - 1] ==> reader in readers
    ensures readers[|readers| - 1] in readers
  {
    assert readers == readers[..|readers| - 1] + [readers[|readers| - 1]];
  }

  lemma {:induction false} GrantAllAdds(grants: seq<Grant>, nextId: nat, readers: seq<string>, bank: string, owner: string)
    requires AllBare(readers) && IsBare(owner)
    ensures var g := GrantAll(grants, nextId, readers, bank, owner);
      && grants <= g.0 && nextId <= g.1
      && (forall k :: |grants| <= k < |g.0| ==> NewRow(g.0[k], nextId, readers, bank, owner))
  {
    if readers != [] {
      var n := |readers| - 1;
      GrantAllAdds(grants, nextId, readers[..n], bank, owner);
      AmongMore(readers);
    }
  }

  lemma {:induction false} GrantAllServes(grants: seq<Grant>, nextId: nat, readers: seq<string>, bank: string, owner: string)
    requires AllBare(readers) && AtMostOne(grants)
    ensures var g := GrantAll(grants, nextId, readers, bank, owner).0;
      AtMostOne(g) && forall k :: 0 <= k < |readers| ==> Served(g, readers[k], bank)
  {
    if readers != [] {
      var n := |readers| - 1;
      GrantAllServes(grants, nextId, readers[..n], bank, owner);
      var before := GrantAll(grants, nextId, readers[..n], bank, owner);
      UpsertServes(before.0, before.1, readers[n], bank, owner);
      var after := Upserted(before.0, before.1, readers[n], bank, owner);
      forall k | 0 <= k < |readers|
        ensures Served(after, readers[k], bank)
      {
        if k < n {
          assert readers[..n][k] == readers[k];
          ServedStays(before.0, after, readers[k], bank);
        }
      }
    }
  }

  /** Readers that all have a grant get no other. */
  lemma {:induction false} GrantAllIdle(grants: seq<Grant>, nextId: nat, readers: seq<string>, bank: string, owner: string)
    requires AllBare(readers) && forall k :: 0 <= k < |readers| ==> Served(grants, readers[k], bank)
    ensures GrantAll(grants, nextId, readers, bank, owner).0 == grants
  {
    if readers != [] {
      var n := |readers| - 1;
      assert forall k :: 0 <= k < n ==> readers[..n][k] == readers[k];
      GrantAllIdle(grants, nextId, readers[..n], bank, owner);
      var k :| 0 <= k < |grants| && Allows(grants[k], readers[n], bank);
      assert FindGrant(grants, readers[n], bank) <= k;
    }
  }

  // ---------------------------------------------------------------- a sync, row by row

  /** One application: who owns, which bank, which readers. */
  datatype Sync = Sync(owner: string, bank: string, readers: seq<string>, now: string)

  ghost predicate Applies(y: Sync) {
    WellNamed(y.owner, y.readers) && y.bank != ""
  }

  function After(grants: seq<Grant>, nextId: nat, y: Sync): seq<Grant> {
    Synced(grants, nextId, y.owner, Some(y.bank), y.readers, y.now).0
  }

  function Owner(y: Sync): string {
    Bare(y.owner)
  }

  predicate Stale(g: Grant, y: Sync) {
    g.active && g.owner == Owner(y) && !Keeps(g, Some(y.bank), Desired(y.readers))
  }

  /** The grant as it is once revoked. */
  function Ended(g: Grant, now: string): Grant {
    g.(active := false, revokedAt := Some(now))
  }

  /** A row that was there is revoked exactly when it is stale; the rows added are the owner's, for
      the bank, to desired readers. */
  lemma SyncedRows(grants: seq<Grant>, nextId: nat, y: Sync)
    requires Applies(y) && FreshIds(grants, nextId)
    ensures |grants| <= |After(grants, nextId, y)|
    ensures forall k :: 0 <= k < |grants| ==>
      After(grants, nextId, y)[k] == if Stale(grants[k], y) then Ended(grants[k], y.now) else grants[k]
    ensures forall k :: |grants| <= k < |After(grants, nextId, y)| ==>
      NewRow(After(grants, nextId, y)[k], nextId, Desired(y.readers), y.bank, Owner(y))
  {
    var desired := Desired(y.readers);
    DesiredBare(y.owner, y.readers);
    var drop := Outdated(grants, Owner(y), Some(y.bank), desired);
    var g := GrantAll(grants, nextId, desired, y.bank, Owner(y)).0;
    GrantAllAdds(grants, nextId, desired, y.bank, Owner(y));
    forall k | 0 <= k < |grants|
      ensures grants[k].id in drop <==> Stale(grants[k], y)
    {
      assert g[k] == grants[k];
    }
  }

  /** The owner's active grants are all for the bank and for desired readers. */
  lemma OwnerGrantsOnlyDesired(grants: seq<Grant>, nextId: nat, y: Sync, k: nat)
    requires Applies(y) && FreshIds(grants, nextId) && k < |After(grants, nextId, y)|
    requires var g := After(grants, nextId, y)[k]; g.active && g.owner == Owner(y)
    ensures var g := After(grants, nextId, y)[k]; g.bank == y.bank && g.reader in Desired(y.readers)
  {
    SyncedRows(grants, nextId, y);
    if k < |grants| {
      assert !Stale(grants[k], y);
    }
  }

  /** Grants of other owners are as they were. */
  lemma OthersUntouched(grants: seq<Grant>, nextId: nat, y: Sync, k: nat)
    requires Applies(y) && FreshIds(grants, nextId) && k < |After(grants, nextId, y)|
    ensures var after := After(grants, nextId, y);
      if k < |grants| then grants[k].owner != Owner(y) ==> after[k] == grants[k] else after[k].owner == Owner(y)
  {
    SyncedRows(grants, nextId, y);
  }

  /** A grant the sync does not revoke still serves. */
  lemma ServedAfter(grants: seq<Grant>, nextId: nat, y: Sync, d: string)
    requires Applies(y) && FreshIds(grants, nextId) && AtMostOne(grants) && d in Desired(y.readers)
    ensures Served(After(grants, nextId, y), d, y.bank)
  {
    var desired, after := Desired(y.readers), After(grants, nextId, y);
    DesiredBare(y.owner, y.readers);
    GrantAllServes(grants, nextId, desired, y.bank, Owner(y));
    GrantAllAdds(grants, nextId, desired, y.bank, Owner(y));
    SyncedRows(grants, nextId, y);
    var g := GrantAll(grants, nextId, desired, y.bank, Owner(y)).0;
    assert Served(g, d, y.bank) by {
      var i :| 0 <= i < |desired| && desired[i] == d;
    }
    var k :| 0 <= k < |g| && Allows(g[k], d, y.bank);
    assert Allows(after[k], d, y.bank) by {
      if k < |grants| {
        assert g[k] == grants[k] && !Stale(grants[k], y);
      }
    }
  }

  /** Every desired reader holds a grant for the bank, and no pair of reader and bank has two. */
  lemma DesiredServedOnce(grants: seq<Grant>, nextId: nat, y: Sync)
    requires Applies(y) && FreshIds(grants, nextId) && AtMostOne(grants)
    ensures AtMostOne(After(grants, nextId, y))
    ensures forall k :: 0 <= k < |Desired(y.readers)| ==> Served(After(grants, nextId, y), Desired(y.readers)[k], y.bank)
  {
    var desired, after := Desired(y.readers), After(grants, nextId, y);
    DesiredBare(y.owner, y.readers);
    GrantAllServes(grants, nextId, desired, y.bank, Owner(y));
    var g := GrantAll(grants, nextId, desired, y.bank, Owner(y)).0;
    assert forall k :: 0 <= k < |after| && after[k].active ==> after[k] == g[k];
    forall k | 0 <= k < |desired|
      ensures Served(after, desired[k], y.bank)
    {
      ServedAfter(grants, nextId, y, desired[k]);
    }
  }

  /** A second sync of the same declaration changes nothing. */
  lemma SyncIsIdempotent(grants: seq<Grant>, nextId: nat, again: nat, later: string, y: Sync)
    requires Applies(y) && FreshIds(grants, nextId) && AtMostOne(grants)
    requires FreshIds(After(grants, nextId, y), again)
    ensures After(After(grants, nextId, y), again, y.(now := later)) == After(grants, nextId, y)
  {
    var once, z := After(grants, nextId, y), y.(now := later);
    DesiredServedOnce(grants, nextId, y);
    DesiredBare(y.owner, y.readers);
    GrantAllIdle(once, again, Desired(y.readers), y.bank, Owner(y));
    SyncedRows(once, again, z);
    forall k | 0 <= k < |once|
      ensures !Stale(once[k], z)
    {
      if once[k].active && once[k].owner == Owner(y) {
        OwnerGrantsOnlyDesired(grants, nextId, y, k);
      }
    }
    assert |After(once, again, z)| == |once|;
  }

  /** A declaration without a bank, or with an empty one, revokes every grant of its owner, and no other. */
  lemma NoBankRevokesAll(
      grants: seq<Grant>, nextId: nat, owner: string, bank: Option<string>, readers: seq<string>, now: string, k: nat)
    requires PrefixedOnce(owner) && FreshIds(grants, nextId) && k < |grants| && (bank.None? || bank.value == "")
    ensures var after := Synced(grants, nextId, owner, bank, readers, now).0;
      && |after| == |grants|
      && after[k] == if grants[k].active && grants[k].owner == Bare(owner) then Ended(grants[k], now) else grants[k]
  {
    assert grants[k].id in Outdated(grants, Bare(owner), bank, Desired(readers))
      <==> grants[k].active && grants[k].owner == Bare(owner);
  }

  // ---------------------------------------------------------------- what a sync reports

  /** The rows that were active before and are no longer. */
  function Terminated(before: seq<Grant>, after: seq<Grant>): seq<Grant>
    requires |before| <= |after|
  {
    if before == [] then []
    else
      var n := |before| - 1;
      var front := Terminated(before[..n], after);
      if before[n].active && !after[n].active then front + [after[n]] else front
  }

  lemma {:induction false} OutdatedAreTerminated(
      before: seq<Grant>, after: seq<Grant>, owner: string, bank: Option<string>, readers: seq<string>, now: string)
    requires |before| <= |after|
    requires forall k :: 0 <= k < |before| ==>
      var g := before[k];
      after[k] == if g.active && g.owner == Bare(owner) && !Keeps(g, bank, readers) then Ended(g, now) else g
    ensures OutdatedRows(before, owner, bank, readers, now) == Terminated(before, after)
  {
    if before != [] {
      OutdatedAreTerminated(before[..|before| - 1], after, owner, bank, readers, now);
    }
  }

  /** The rows a sync reports as revoked are exactly those it has ended, as they are then. */
  lemma ReportsTerminated(grants: seq<Grant>, nextId: nat, y: Sync)
    requires Applies(y) && FreshIds(grants, nextId)
    ensures |grants| <= |After(grants, nextId, y)|
    ensures OutdatedRows(grants, Bare(y.owner), Some(y.bank), Desired(y.readers), y.now)
         == Terminated(grants, After(grants, nextId, y))
  {
    SyncedRows(grants, nextId, y);
    DesiredBare(y.owner, y.readers);
    OutdatedAreTerminated(grants, After(grants, nextId, y), Owner(y), Some(y.bank), Desired(y.readers), y.now);
  }
}
