/** The secondary flow index of the in-memory store (`packages/hub-persistence/src/memory.ts`): a
    table by origin space and flow id beside the snapshots it is derived from. */
module FlowIndex {
  import opened SpaceIds
  import opened Wrappers

  /** An index entry, once normalised; `body` stands for its other fields. */
  datatype Entry = Entry(flow: string, origin: string, body: string)

  datatype Key = Key(space: string, flow: string)

  datatype Store = Store(snapshots: map<string, seq<Entry>>, index: map<Key, Entry>)

  function KeyOf(e: Entry): Key {
    Key(Bare(e.origin), e.flow)
  }

  function Cleared(index: map<Key, Entry>, space: string): map<Key, Entry> {
    map k | k in index && Bare(index[k].origin) != space :: index[k]
  }

  function Indexed(index: map<Key, Entry>, flows: seq<Entry>): map<Key, Entry> {
    if flows == [] then index
    else Indexed(index, flows[..|flows| - 1])[KeyOf(flows[|flows| - 1]) := flows[|flows| - 1]]
  }

  function Replaced(s: Store, space: string, flows: seq<Entry>): Store {
    var bare := Bare(space);
    Store(s.snapshots[bare := flows], Indexed(Cleared(s.index, bare), flows))
  }

  function ListFlowIndex(s: Store, space: string): seq<Entry> {
    if Bare(space) in s.snapshots then s.snapshots[Bare(space)] else []
  }

  function GetFlowIndexEntry(s: Store, flow: string, space: string): Option<Entry> {
    var key := Key(Bare(space), flow);
    if key in s.index then Some(s.index[key]) else None
  }

  /** The last entry of a flow in a snapshot. */
  function LastOf(flows: seq<Entry>, flow: string): Option<Entry> {
    if flows == [] then None
    else if flows[|flows| - 1].flow == flow then Some(flows[|flows| - 1])
    else LastOf(flows[..|flows| - 1], flow)
  }

  class FlowStore {
    var snapshots: map<string, seq<Entry>>
    var index: map<Key, Entry>

    ghost function View(): Store
      reads this
    {
      Store(snapshots, index)
    }

    constructor ()
      ensures View() == Store(map[], map[])
    {
      snapshots, index := map[], map[];
    }

    method ReplaceSpaceIndex(space: string, flows: seq<Entry>)
      modifies this
      ensures View() == Replaced(old(View()), space, flows)
    {
      var bare := Bare(space);
      snapshots := snapshots[bare := flows];
      var todo := index.Keys;
      while todo != {}
        invariant snapshots == old(snapshots)[bare := flows] && todo <= old(index).Keys
        invariant index == map k | k in old(index) && (k in todo || Bare(old(index)[k].origin) != bare) :: old(index)[k]
      {
        var key :| key in todo;
        if Bare(index[key].origin) == bare {
          index := index - {key};
        }
        todo := todo - {key};
      }
      assert index == Cleared(old(index), bare);
      for i := 0 to |flows|
        invariant snapshots == old(snapshots)[bare := flows]
        invariant index == Indexed(Cleared(old(index), bare), flows[..i])
      {
        assert flows[..i + 1][..i] == flows[..i];
        index := index[KeyOf(flows[i]) := flows[i]];
      }
      assert flows[..|flows|] == flows;
    }
  }

  // ---------------------------------------------------------------- agreement

  /** Every entry is filed under its own origin. */
  predicate Filed(index: map<Key, Entry>) {
    forall k :: k in index ==> KeyOf(index[k]) == k
  }

  /** Looking a flow up gives the last entry that its space's snapshot has for it. */
  ghost predicate Agrees(s: Store, space: string) {
    forall flow :: GetFlowIndexEntry(s, flow, space) == LastOf(ListFlowIndex(s, space), flow)
  }

  ghost predicate AllAgree(s: Store) {
    Filed(s.index) && forall space :: Agrees(s, space)
  }

  /** Every flow of the snapshot carries the space as its origin. */
  predicate AtHome(space: string, flows: seq<Entry>) {
    forall k :: 0 <= k < |flows| ==> Bare(flows[k].origin) == Bare(space)
  }

  lemma {:induction false} IndexedFiled(index: map<Key, Entry>, flows: seq<Entry>)
    requires Filed(index)
    ensures Filed(Indexed(index, flows))
  {
    if flows != [] {
      IndexedFiled(index, flows[..|flows| - 1]);
    }
  }

  function Lookup(index: map<Key, Entry>, key: Key): Option<Entry> {
    if key in index then Some(index[key]) else None
  }

  /** The last entry of a snapshot that is filed under a key. */
  function LastAt(flows: seq<Entry>, key: Key): Option<Entry> {
    if flows == [] then None
    else if KeyOf(flows[|flows| - 1]) == key then Some(flows[|flows| - 1])
    else LastAt(flows[..|flows| - 1], key)
  }

  lemma {:induction false} IndexedLookup(index: map<Key, Entry>, flows: seq<Entry>, key: Key)
    ensures Lookup(Indexed(index, flows), key)
         == if LastAt(flows, key).Some? then LastAt(flows, key) else Lookup(index, key)
  {
    if flows != [] {
      IndexedLookup(index, flows[..|flows| - 1], key);
    }
  }

  /** A snapshot of one space shows in exactly the keys of that space. */
  lemma {:induction false} LastAtHome(space: string, flows: seq<Entry>, key: Key)
    requires AtHome(space, flows)
    ensures LastAt(flows, key) == if key.space == Bare(space) then LastOf(flows, key.flow) else None
  {
    if flows != [] {
      LastAtHome(space, flows[..|flows| - 1], key);
    }
  }

  /** Replacing one space's snapshot, with flows of that space, keeps the index in agreement with
      every snapshot; other spaces' entries are as they were. */
  lemma ReplaceKeepsAgreement(s: Store, space: string, flows: seq<Entry>)
    requires AllAgree(s) && AtHome(space, flows)
    ensures var t := Replaced(s, space, flows);
      && AllAgree(t) && ListFlowIndex(t, space) == flows
      && forall flow, other :: Bare(other) != Bare(space) ==>
           GetFlowIndexEntry(t, flow, other) == GetFlowIndexEntry(s, flow, other)
  {
    var t := Replaced(s, space, flows);
    IndexedFiled(Cleared(s.index, Bare(space)), flows);
    forall flow, other
      ensures GetFlowIndexEntry(t, flow, other)
           == if Bare(other) == Bare(space) then LastOf(flows, flow) else GetFlowIndexEntry(s, flow, other)
    {
      IndexedLookup(Cleared(s.index, Bare(space)), flows, Key(Bare(other), flow));
      LastAtHome(space, flows, Key(Bare(other), flow));
    }
    forall other
      ensures Agrees(t, other)
    {
      assert Agrees(s, other);
    }
  }

  datatype Replace = Replace(space: string, flows: seq<Entry>)

  function Run(calls: seq<Replace>): Store {
    if calls == [] then Store(map[], map[])
    else Replaced(Run(calls[..|calls| - 1]), calls[|calls| - 1].space, calls[|calls| - 1].flows)
  }

  /** After any sequence of replacements, as long as every snapshot is of its own space. */
  lemma {:induction false} AlwaysAgrees(calls: seq<Replace>)
    requires forall k :: 0 <= k < |calls| ==> AtHome(calls[k].space, calls[k].flows)
    ensures AllAgree(Run(calls))
  {
    if calls != [] {
      AlwaysAgrees(calls[..|calls| - 1]);
      var last := calls[|calls| - 1];
      ReplaceKeepsAgreement(Run(calls[..|calls| - 1]), last.space, last.flows);
    }
  }

  // ---------------------------------------------------------------- entries of other spaces

  /** The snapshot's last word on every flow is an entry of its own space. */
  ghost predicate LastWordsAtHome(space: string, flows: seq<Entry>) {
    forall flow :: LastOf(flows, flow).Some? ==> Bare(LastOf(flows, flow).value.origin) == Bare(space)
  }

  lemma {:induction false} LastOfFlow(flows: seq<Entry>, flow: string)
    ensures LastOf(flows, flow).Some? ==> LastOf(flows, flow).value.flow == flow
  {
    if flows != [] {
      LastOfFlow(flows[..|flows| - 1], flow);
    }
  }

  /** The last word on a flow, when it is at home, is what is filed last under the flow's key. */
  lemma {:induction false} LastWordIsFiled(space: string, flows: seq<Entry>, flow: string)
    requires LastOf(flows, flow).Some? ==> Bare(LastOf(flows, flow).value.origin) == Bare(space)
    ensures LastOf(flows, flow).Some? ==> LastAt(flows, Key(Bare(space), flow)) == LastOf(flows, flow)
    ensures LastOf(flows, flow).None? ==> LastAt(flows, Key(Bare(space), flow)).None?
  {
    if flows != [] && flows[|flows| - 1].flow != flow {
      LastWordIsFiled(space, flows[..|flows| - 1], flow);
    }
  }

  /** Replacing a space's snapshot leaves its index in agreement exactly when the snapshot's last
      word on every flow is the space's own: an entry of another space is filed elsewhere. */
  lemma AgreesIff(s: Store, space: string, flows: seq<Entry>)
    requires Filed(s.index)
    ensures Agrees(Replaced(s, space, flows), space) <==> LastWordsAtHome(space, flows)
  {
    var t, index := Replaced(s, space, flows), Cleared(s.index, Bare(space));
    IndexedFiled(index, flows);
    assert ListFlowIndex(t, space) == flows;
    if LastWordsAtHome(space, flows) {
      forall flow
        ensures GetFlowIndexEntry(t, flow, space) == LastOf(flows, flow)
      {
        LastWordIsFiled(space, flows, flow);
        IndexedLookup(index, flows, Key(Bare(space), flow));
      }
    } else {
      var flow :| LastOf(flows, flow).Some? && Bare(LastOf(flows, flow).value.origin) != Bare(space);
      assert GetFlowIndexEntry(t, flow, space) != LastOf(flows, flow);
    }
  }

  /** What the snapshot files under other spaces is what those spaces have themselves. */
  ghost predicate VisitorsKnown(s: Store, space: string, flows: seq<Entry>) {
    forall other, flow :: Bare(other) != Bare(space) && LastAt(flows, Key(Bare(other), flow)).Some? ==>
      LastAt(flows, Key(Bare(other), flow)) == LastOf(ListFlowIndex(s, other), flow)
  }

  lemma OthersLookup(s: Store, space: string, flows: seq<Entry>, other: string, flow: string)
    requires Filed(s.index) && Bare(other) != Bare(space)
    ensures var visitor := LastAt(flows, Key(Bare(other), flow)); var t := Replaced(s, space, flows);
      && GetFlowIndexEntry(t, flow, other) == (if visitor.Some? then visitor else GetFlowIndexEntry(s, flow, other))
      && ListFlowIndex(t, other) == ListFlowIndex(s, other)
  {
    IndexedLookup(Cleared(s.index, Bare(space)), flows, Key(Bare(other), flow));
  }

  lemma OtherAgreesIff(s: Store, space: string, flows: seq<Entry>, other: string)
    requires AllAgree(s) && Bare(other) != Bare(space)
    ensures Agrees(Replaced(s, space, flows), other) <==>
      forall flow :: LastAt(flows, Key(Bare(other), flow)).Some? ==>
        LastAt(flows, Key(Bare(other), flow)) == LastOf(ListFlowIndex(s, other), flow)
  {
    assert Agrees(s, other);
    forall flow
      ensures var visitor := LastAt(flows, Key(Bare(other), flow)); var t := Replaced(s, space, flows);
        GetFlowIndexEntry(t, flow, other) == LastOf(ListFlowIndex(t, other), flow)
        <==> (visitor.Some? ==> visitor == LastOf(ListFlowIndex(s, other), flow))
    {
      OthersLookup(s, space, flows, other, flow);
    }
  }

  lemma SameSpaceAgrees(s: Store, space: string, other: string)
    requires Bare(other) == Bare(space)
    ensures Agrees(s, other) <==> Agrees(s, space)
  {
    forall flow
      ensures GetFlowIndexEntry(s, flow, other) == GetFlowIndexEntry(s, flow, space)
    {
    }
  }

  /** A replacement keeps the whole index in agreement with all snapshots exactly when its last words
      are at home and what it files under other spaces is what those have themselves. */
  lemma AllAgreeIff(s: Store, space: string, flows: seq<Entry>)
    requires AllAgree(s)
    ensures AllAgree(Replaced(s, space, flows)) <==> LastWordsAtHome(space, flows) && VisitorsKnown(s, space, flows)
  {
    var t := Replaced(s, space, flows);
    IndexedFiled(Cleared(s.index, Bare(space)), flows);
    AgreesIff(s, space, flows);
    if AllAgree(t) {
      forall other, flow | Bare(other) != Bare(space) && LastAt(flows, Key(Bare(other), flow)).Some?
        ensures LastAt(flows, Key(Bare(other), flow)) == LastOf(ListFlowIndex(s, other), flow)
      {
        assert Agrees(t, other);
        OtherAgreesIff(s, space, flows, other);
      }
      assert Agrees(t, space);
    }
    if LastWordsAtHome(space, flows) && VisitorsKnown(s, space, flows) {
      forall other
        ensures Agrees(t, other)
      {
        if Bare(other) == Bare(space) {
          SameSpaceAgrees(t, space, other);
        } else {
          OtherAgreesIff(s, space, flows, other);
        }
      }
    }
  }
}
