/** Reading a memory bank (`packages/hub-daemon/src/memory-bank-access.ts`). */
module BankAccess {
  import opened JsText
  import opened ReaderGrants
  import opened ReaderSync
  import opened SpaceIds
  import opened Wrappers

  datatype Space = Space(id: string, bank: Option<string>, active: bool)

  /** `grant` and `owner` say by which grant a bank of another space is read. */
  datatype Decision =
    | Own(bank: string)
    | Granted(bank: string, grant: nat, owner: string)
    | Unknown(bank: string)
    | Denied(bank: string)

  predicate Allowed(d: Decision) {
    d.Own? || d.Granted?
  }

  function OwnBank(space: Option<Space>): string {
    if space.Some? && space.value.bank.Some? then Trim(space.value.bank.value) else ""
  }

  /** Some active space has this bank. */
  predicate Owned(spaces: seq<Space>, bank: string) {
    exists k | 0 <= k < |spaces| :: spaces[k].active && spaces[k].bank.Some? && Trim(spaces[k].bank.value) == bank
  }

  function AssertBankRead(spaces: seq<Space>, grants: seq<Grant>, space: Option<Space>, requestedBank: string): Decision {
    var own, requested := OwnBank(space), Trim(requestedBank);
    var target := if requested != "" then requested else own;
    if target == "" then Unknown(requested)
    else if target == own then Own(own)
    else if !Owned(spaces, target) then Unknown(target)
    else if space.None? then Denied(target)
    else
      var k := FindGrant(grants, StoredId(space.value.id), target);
      if k == |grants| then Denied(target) else Granted(target, grants[k].id, grants[k].owner)
  }

  /** Writing is for a space's own bank only. */
  function AssertBankWrite(spaces: seq<Space>, space: Option<Space>, requestedBank: string): Decision {
    var own, requested := OwnBank(space), Trim(requestedBank);
    if own == "" then Unknown(requested)
    else if requested == "" || requested == own then Own(own)
    else if !Owned(spaces, requested) then Unknown(requested)
    else Denied(requested)
  }

  /** A space asks for a bank that is not its own. */
  predicate AsksForeign(space: Space, requestedBank: string) {
    Trim(requestedBank) != "" && Trim(requestedBank) != OwnBank(Some(space))
  }

  /** An active space has this bank as its own. */
  ghost predicate HasActiveOwner(spaces: seq<Space>, bank: string) {
    exists space :: space in spaces && space.active && space.bank.Some? && Trim(space.bank.value) == bank
  }

  /** An active grant gives the bank to the reader, named with or without its prefix. */
  ghost predicate HasGrant(grants: seq<Grant>, reader: string, bank: string) {
    exists g :: g in grants && g.active && g.bank == bank && g.reader == StoredId(reader)
  }

  lemma OwnedIff(spaces: seq<Space>, bank: string)
    ensures Owned(spaces, bank) <==> HasActiveOwner(spaces, bank)
  {
    if HasActiveOwner(spaces, bank) {
      var space :| space in spaces && space.active && space.bank.Some? && Trim(space.bank.value) == bank;
      var k :| 0 <= k < |spaces| && spaces[k] == space;
    }
    if Owned(spaces, bank) {
      var k :| 0 <= k < |spaces| && spaces[k].active && spaces[k].bank.Some? && Trim(spaces[k].bank.value) == bank;
      assert spaces[k] in spaces;
    }
  }

  lemma ServedIff(grants: seq<Grant>, reader: string, bank: string)
    ensures Served(grants, StoredId(reader), bank) <==> HasGrant(grants, reader, bank)
  {
    if HasGrant(grants, reader, bank) {
      var g :| g in grants && g.active && g.bank == bank && g.reader == StoredId(reader);
      var k :| 0 <= k < |grants| && grants[k] == g;
      assert Allows(grants[k], StoredId(reader), bank);
    }
    if Served(grants, StoredId(reader), bank) {
      var k :| 0 <= k < |grants| && Allows(grants[k], StoredId(reader), bank);
      assert grants[k] in grants;
    }
  }

  /** A bank of another space is read exactly when an active space owns it and the reader has an
      active grant for it. */
  lemma ReadsForeignIff(spaces: seq<Space>, grants: seq<Grant>, space: Space, requestedBank: string)
    requires AsksForeign(space, requestedBank)
    ensures var bank := Trim(requestedBank);
      Allowed(AssertBankRead(spaces, grants, Some(space), requestedBank))
      <==> HasActiveOwner(spaces, bank) && HasGrant(grants, space.id, bank)
  {
    var bank := Trim(requestedBank);
    OwnedIff(spaces, bank);
    ServedIff(grants, space.id, bank);
    ReadsIfServed(spaces, grants, space, requestedBank);
  }

  lemma ReadsIfServed(spaces: seq<Space>, grants: seq<Grant>, space: Space, requestedBank: string)
    requires AsksForeign(space, requestedBank)
    ensures var bank := Trim(requestedBank);
      Allowed(AssertBankRead(spaces, grants, Some(space), requestedBank))
      <==> Owned(spaces, bank) && Served(grants, StoredId(space.id), bank)
  {
    var bank := Trim(requestedBank);
    var k := FindGrant(grants, StoredId(space.id), bank);
    if Served(grants, StoredId(space.id), bank) {
      var j :| 0 <= j < |grants| && Allows(grants[j], StoredId(space.id), bank);
      assert k <= j;
    }
  }

  // ---------------------------------------------------------------- every decision

  /** The space has this bank as its own. */
  ghost predicate OwnsBank(space: Option<Space>, bank: string) {
    space.Some? && space.value.bank.Some? && bank != "" && Trim(space.value.bank.value) == bank
  }

  /** The first active grant that gives the bank to the reader. */
  ghost predicate IsFirstGrant(grants: seq<Grant>, k: nat, reader: string, bank: string) {
    && k < |grants| && grants[k].active && grants[k].bank == bank && grants[k].reader == StoredId(reader)
    && forall j :: 0 <= j < k ==> !(grants[j].active && grants[j].bank == bank && grants[j].reader == StoredId(reader))
  }

  /** What a read is answered: the own bank to whoever names it or none; a bank of another active space
      by the first grant for it; and otherwise why not. */
  lemma ReadIs(spaces: seq<Space>, grants: seq<Grant>, space: Option<Space>, requestedBank: string)
    ensures var asked, d := Trim(requestedBank), AssertBankRead(spaces, grants, space, requestedBank);
      && (forall own :: OwnsBank(space, own) && (asked == "" || asked == own) ==> d == Own(own))
      && (asked == "" && (forall own :: !OwnsBank(space, own)) ==> d == Unknown(""))
      && (asked != "" && !OwnsBank(space, asked) ==>
            if !HasActiveOwner(spaces, asked) then d == Unknown(asked)
            else if space.Some? && HasGrant(grants, space.value.id, asked) then
              exists k: nat :: IsFirstGrant(grants, k, space.value.id, asked) && d == Granted(asked, grants[k].id, grants[k].owner)
            else d == Denied(asked))
  {
    var asked := Trim(requestedBank);
    OwnedIff(spaces, asked);
    OwnBankIs(space);
    assert OwnBank(space) != "" ==> OwnsBank(space, OwnBank(space));
    if space.Some? {
      ServedIff(grants, space.value.id, asked);
      FirstGrantIs(grants, space.value.id, asked);
    }
  }

  lemma OwnBankIs(space: Option<Space>)
    ensures forall own :: OwnsBank(space, own) <==> own != "" && own == OwnBank(space)
  {
  }

  lemma FirstGrantIs(grants: seq<Grant>, reader: string, bank: string)
    ensures var k := FindGrant(grants, StoredId(reader), bank);
      if Served(grants, StoredId(reader), bank) then IsFirstGrant(grants, k, reader, bank) else k == |grants|
  {
    var k := FindGrant(grants, StoredId(reader), bank);
    if Served(grants, StoredId(reader), bank) {
      var j :| 0 <= j < |grants| && Allows(grants[j], StoredId(reader), bank);
      assert k <= j;
      assert forall i :: 0 <= i < k ==> !Allows(grants[i], StoredId(reader), bank);
    }
  }

  /** What a write is answered: only the own bank is written, and otherwise why not. */
  lemma WriteIs(spaces: seq<Space>, space: Option<Space>, requestedBank: string)
    ensures var asked, d := Trim(requestedBank), AssertBankWrite(spaces, space, requestedBank);
      && ((forall own :: !OwnsBank(space, own)) ==> d == Unknown(asked))
      && (forall own :: OwnsBank(space, own) ==>
            if asked == "" || asked == own then d == Own(own)
            else d == if HasActiveOwner(spaces, asked) then Denied(asked) else Unknown(asked))
  {
    OwnedIff(spaces, Trim(requestedBank));
    OwnBankIs(space);
    assert OwnBank(space) != "" ==> OwnsBank(space, OwnBank(space));
  }

  /** The reader has a grant for the bank from somebody else than the owner. */
  predicate ServedByOthers(grants: seq<Grant>, owner: string, reader: string, bank: string) {
    exists k | 0 <= k < |grants| :: Allows(grants[k], reader, bank) && grants[k].owner != owner
  }

  /** After a sync, the banks' readers are exactly the desired ones, and those that another owner
      had granted the bank. */
  lemma ServedAfterIff(grants: seq<Grant>, nextId: nat, y: Sync, reader: string)
    requires Applies(y) && FreshIds(grants, nextId) && AtMostOne(grants)
    ensures Served(After(grants, nextId, y), reader, y.bank)
      <==> reader in Desired(y.readers) || ServedByOthers(grants, Owner(y), reader, y.bank)
  {
    var after := After(grants, nextId, y);
    SyncedRows(grants, nextId, y);
    if reader in Desired(y.readers) {
      ServedAfter(grants, nextId, y, reader);
    } else if ServedByOthers(grants, Owner(y), reader, y.bank) {
      var k :| 0 <= k < |grants| && Allows(grants[k], reader, y.bank) && grants[k].owner != Owner(y);
      assert Allows(after[k], reader, y.bank);
    } else {
      forall k | 0 <= k < |after|
        ensures !Allows(after[k], reader, y.bank)
      {
        if k < |grants| {
          assert !Allows(grants[k], reader, y.bank) || grants[k].owner == Owner(y);
        }
      }
    }
  }

  /** After a sync, a space that asks for the synced bank, and does not own it, may read it exactly
      when some active space owns the bank and the space is a desired reader or another owner had
      granted it the bank. */
  lemma ReadersAfterSync(
      spaces: seq<Space>, grants: seq<Grant>, nextId: nat, y: Sync, space: Space, requestedBank: string)
    requires Applies(y) && FreshIds(grants, nextId) && AtMostOne(grants)
    requires AsksForeign(space, requestedBank) && Trim(requestedBank) == y.bank
    ensures Allowed(AssertBankRead(spaces, After(grants, nextId, y), Some(space), requestedBank))
      <==> HasActiveOwner(spaces, y.bank)
           && (StoredId(space.id) in Desired(y.readers) || ServedByOthers(grants, Owner(y), StoredId(space.id), y.bank))
  {
    ReadsIfServed(spaces, After(grants, nextId, y), space, requestedBank);
    OwnedIff(spaces, y.bank);
    ServedAfterIff(grants, nextId, y, StoredId(space.id));
  }

  // ---------------------------------------------------------------- the list of readable banks

  /** `granted` is the grant a bank is listed by; the own bank needs none. */
  datatype Listed = Listed(bank: string, granted: Option<nat>, owner: string)

  predicate HasBank(out: seq<Listed>, bank: string) {
    exists k | 0 <= k < |out| :: out[k].bank == bank
  }

  predicate ListedBy(out: seq<Listed>, bank: string, granted: Option<nat>) {
    exists k | 0 <= k < |out| :: out[k].bank == bank && out[k].granted == granted
  }

  predicate BanksDiffer(out: seq<Listed>) {
    forall j, k :: 0 <= j < k < |out| ==> out[j].bank != out[k].bank
  }

  /** What the list says of a bank: it is the space's own, or the first active grant for it. */
  predicate ListedRightly(row: Listed, grants: seq<Grant>, space: Space) {
    if row.bank == OwnBank(Some(space)) && row.bank != "" then row == Listed(row.bank, None, Prefixed(space.id))
    else
      var k := FindGrant(grants, StoredId(space.id), row.bank);
      k < |grants| && row == Listed(row.bank, Some(grants[k].id), Prefixed(grants[k].owner))
  }

  /** The own bank and every bank granted, each once. */
  ghost predicate IsListing(out: seq<Listed>, grants: seq<Grant>, space: Space) {
    && BanksDiffer(out) && (forall k :: 0 <= k < |out| ==> ListedRightly(out[k], grants, space))
    && forall bank ::
         HasBank(out, bank) <==> (bank == OwnBank(Some(space)) && bank != "") || Served(grants, StoredId(space.id), bank)
  }

  /** The list once the first `n` grants have been gone through. */
  ghost predicate ListsFirst(out: seq<Listed>, seen: set<string>, grants: seq<Grant>, n: nat, space: Space)
    requires n <= |grants|
  {
    && BanksDiffer(out) && (forall bank :: bank in seen <==> HasBank(out, bank))
    && (forall bank ::
          bank in seen <==> (bank == OwnBank(Some(space)) && bank != "") || Served(grants[..n], StoredId(space.id), bank))
    && forall k :: 0 <= k < |out| ==> ListedRightly(out[k], grants, space)
  }

  predicate Adds(g: Grant, seen: set<string>, space: Space) {
    g.active && g.reader == StoredId(space.id) && g.bank !in seen
  }

  lemma ListsOneMore(out: seq<Listed>, seen: set<string>, grants: seq<Grant>, n: nat, space: Space)
    requires n < |grants| && ListsFirst(out, seen, grants, n, space) && Adds(grants[n], seen, space)
    ensures var g := grants[n];
      ListsFirst(out + [Listed(g.bank, Some(g.id), Prefixed(g.owner))], seen + {g.bank}, grants, n + 1, space)
  {
    var g := grants[n];
    var row := Listed(g.bank, Some(g.id), Prefixed(g.owner));
    ServedOneMore(grants, n, StoredId(space.id));
    FirstGrant(grants, n, StoredId(space.id), g.bank);
    ListedOneMore(out, row);
    assert ListedRightly(row, grants, space);
  }

  lemma ListsNoMore(out: seq<Listed>, seen: set<string>, grants: seq<Grant>, n: nat, space: Space)
    requires n < |grants| && ListsFirst(out, seen, grants, n, space) && !Adds(grants[n], seen, space)
    ensures ListsFirst(out, seen, grants, n + 1, space)
  {
    ServedOneMore(grants, n, StoredId(space.id));
  }

  lemma ListsAll(out: seq<Listed>, seen: set<string>, grants: seq<Grant>, space: Space)
    requires ListsFirst(out, seen, grants, |grants|, space)
    ensures IsListing(out, grants, space)
  {
    assert grants[..|grants|] == grants;
  }

  lemma ListsOwn(grants: seq<Grant>, space: Space)
    ensures var own := OwnBank(Some(space));
      if own == "" then ListsFirst([], {}, grants, 0, space)
      else ListsFirst([Listed(own, None, Prefixed(space.id))], {own}, grants, 0, space)
  {
    var row := Listed(OwnBank(Some(space)), None, Prefixed(space.id));
    ListedOneMore([], row);
    assert [] + [row] == [row];
  }

  /** The banks a space can ask for, before they are sorted for display. */
  method ResolveReadableBanks(grants: seq<Grant>, space: Option<Space>) returns (out: seq<Listed>)
    ensures match space
      case None => out == []
      case Some(s) => IsListing(out, grants, s)
  {
    out := [];
    if space.None? {
      return;
    }
    var own, reader := OwnBank(space), StoredId(space.value.id);
    var seen: set<string> := {};
    ListsOwn(grants, space.value);
    if own != "" {
      seen := {own};
      out := [Listed(own, None, Prefixed(space.value.id))];
    }
    for i := 0 to |grants|
      invariant ListsFirst(out, seen, grants, i, space.value)
    {
      var g := grants[i];
      if g.active && g.reader == reader && g.bank !in seen {
        ListsOneMore(out, seen, grants, i, space.value);
        seen := seen + {g.bank};
        out := out + [Listed(g.bank, Some(g.id), Prefixed(g.owner))];
      } else {
        ListsNoMore(out, seen, grants, i, space.value);
      }
    }
    ListsAll(out, seen, grants, space.value);
  }

  lemma FirstGrant(grants: seq<Grant>, i: nat, reader: string, bank: string)
    requires i < |grants| && Allows(grants[i], reader, bank) && !Served(grants[..i], reader, bank)
    ensures FindGrant(grants, reader, bank) == i
  {
    var k := FindGrant(grants, reader, bank);
    assert forall j :: 0 <= j < i ==> grants[..i][j] == grants[j] && !Allows(grants[..i][j], reader, bank);
  }

  lemma ServedOneMore(grants: seq<Grant>, i: nat, reader: string)
    requires i < |grants|
    ensures forall bank ::
      Served(grants[..i + 1], reader, bank) <==> Served(grants[..i], reader, bank) || Allows(grants[i], reader, bank)
  {
    forall bank
      ensures Served(grants[..i + 1], reader, bank) <==> Served(grants[..i], reader, bank) || Allows(grants[i], reader, bank)
    {
      assert grants[..i + 1][i] == grants[i];
      assert forall k :: 0 <= k < i ==> grants[..i + 1][k] == grants[..i][k];
    }
  }

  lemma ListedOneMore(out: seq<Listed>, row: Listed)
    ensures forall bank :: HasBank(out + [row], bank) <==> HasBank(out, bank) || bank == row.bank
  {
    forall bank
      ensures HasBank(out + [row], bank) <==> HasBank(out, bank) || bank == row.bank
    {
      assert (out + [row])[|out|] == row;
      assert forall k :: 0 <= k < |out| ==> (out + [row])[k] == out[k];
    }
  }

  /** List and check: a named bank may be read exactly when it is listed and is the space's own or
      has an active owner, and then by the grant the list shows. */
  lemma ListedIffReadable(spaces: seq<Space>, grants: seq<Grant>, space: Space, requestedBank: string, out: seq<Listed>)
    requires Trim(requestedBank) != "" && IsListing(out, grants, space)
    ensures var bank, own := Trim(requestedBank), OwnBank(Some(space));
      var decision := AssertBankRead(spaces, grants, Some(space), requestedBank);
      && (Allowed(decision) <==> HasBank(out, bank) && (bank == own || HasActiveOwner(spaces, bank)))
      && (Allowed(decision) ==> ListedBy(out, bank, if decision.Granted? then Some(decision.grant) else None))
  {
    var bank := Trim(requestedBank);
    if AsksForeign(space, requestedBank) {
      ReadsIfServed(spaces, grants, space, requestedBank);
      OwnedIff(spaces, bank);
    }
    if HasBank(out, bank) {
      var k :| 0 <= k < |out| && out[k].bank == bank;
      assert ListedRightly(out[k], grants, space);
    }
  }

  /** They disagree on a bank whose owner is no longer active: it is still listed. */
  lemma ListedButRefused() returns (spaces: seq<Space>, grants: seq<Grant>, reader: Space, out: seq<Listed>)
    ensures IsListing(out, grants, reader) && HasBank(out, "b")
    ensures AssertBankRead(spaces, grants, Some(reader), "b") == Unknown("b")
  {
    spaces := [Space("o", Some("b"), false)];
    reader := Space("r", None, true);
    grants := [Grant(0, "r", "b", "o", true, None)];
    out := [Listed("b", Some(0), "spc_o")];
    assert TrimStart("b") == "b" && TrimEnd("b") == "b";
    assert Bare("r") == "r" && StoredId("r") == "r" && "spc_" + "o" == "spc_o";
    assert FindGrant(grants, "r", "b") == 0;
    assert out[0].bank == "b";
    forall bank
      ensures HasBank(out, bank) <==> Served(grants, "r", bank)
    {
      assert Allows(grants[0], "r", bank) <==> bank == "b";
    }
  }

  /** What a space may write it may read, and a bank of another space is never written. */
  lemma WritersRead(spaces: seq<Space>, grants: seq<Grant>, space: Option<Space>, requestedBank: string)
    ensures Allowed(AssertBankWrite(spaces, space, requestedBank)) ==>
      AssertBankRead(spaces, grants, space, requestedBank) == AssertBankWrite(spaces, space, requestedBank) == Own(OwnBank(space))
    ensures Allowed(AssertBankWrite(spaces, space, requestedBank)) <==>
      OwnBank(space) != "" && (Trim(requestedBank) == "" || Trim(requestedBank) == OwnBank(space))
  {
  }
}
