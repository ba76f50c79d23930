/** The meeting transcript as the in-memory store keeps it
    (`packages/hub-persistence/src/memory.ts`): journal rows stamped with a number per meeting,
    queried from a cursor on. */
module MeetingJournal {
  import opened Wrappers

  /** A row has no number until it is stamped. */
  datatype Row = Row(entry: string, session: string, kind: string, stamp: Option<nat>)

  /** What a query asks for.  `upTo` is not one of the store's own parameters: it cuts a transcript
      off at the other side. */
  datatype Query = Query(session: string, kinds: set<string>, since: Option<int>, upTo: Option<int>)

  predicate Matches(row: Row, q: Query) {
    && row.session == q.session && row.stamp.Some?
    && (q.kinds != {} ==> row.kind in q.kinds)
    && (q.since.Some? ==> row.stamp.value > q.since.value)
    && (q.upTo.Some? ==> row.stamp.value <= q.upTo.value)
  }

  function Select(rows: seq<Row>, q: Query): seq<Row> {
    if rows == [] then []
    else
      var front := Select(rows[..|rows| - 1], q);
      if Matches(rows[|rows| - 1], q) then front + [rows[|rows| - 1]] else front
  }

  function SeqOf(row: Row): nat {
    if row.stamp.Some? then row.stamp.value else 0
  }

  /** Behind every row with the same or a smaller number: the host's sort is stable. */
  function InsertRow(row: Row, sorted: seq<Row>): seq<Row> {
    if sorted == [] || SeqOf(sorted[|sorted| - 1]) <= SeqOf(row) then sorted + [row]
    else InsertRow(row, sorted[..|sorted| - 1]) + [sorted[|sorted| - 1]]
  }

  function Sort(rows: seq<Row>): seq<Row> {
    if rows == [] then [] else InsertRow(rows[|rows| - 1], Sort(rows[..|rows| - 1]))
  }

  function Transcript(rows: seq<Row>, q: Query): seq<Row> {
    Sort(Select(rows, q))
  }

  predicate Ascending(rows: seq<Row>) {
    forall j, k :: 0 <= j < k < |rows| ==> SeqOf(rows[j]) <= SeqOf(rows[k])
  }

  // ---------------------------------------------------------------- filters and the sort

  lemma SelectSnoc(rows: seq<Row>, row: Row, q: Query)
    ensures Select(rows + [row], q) == if Matches(row, q) then Select(rows, q) + [row] else Select(rows, q)
  {
    assert (rows + [row])[..|rows|] == rows;
  }

  lemma {:induction false} SelectHas(rows: seq<Row>, q: Query, row: Row)
    ensures row in Select(rows, q) <==> row in rows && Matches(row, q)
  {
    if rows != [] {
      SelectHas(rows[..|rows| - 1], q, row);
      assert rows == rows[..|rows| - 1] + [rows[|rows| - 1]];
    }
  }

  lemma {:induction false} InsertHas(row: Row, sorted: seq<Row>, r: Row)
    ensures r in InsertRow(row, sorted) <==> r == row || r in sorted
  {
    if sorted != [] {
      InsertHas(row, sorted[..|sorted| - 1], r);
      assert sorted == sorted[..|sorted| - 1] + [sorted[|sorted| - 1]];
    }
  }

  lemma {:induction false} InsertAscending(row: Row, sorted: seq<Row>)
    requires Ascending(sorted)
    ensures Ascending(InsertRow(row, sorted))
  {
    if sorted != [] && SeqOf(sorted[|sorted| - 1]) > SeqOf(row) {
      var front, last := sorted[..|sorted| - 1], sorted[|sorted| - 1];
      InsertAscending(row, front);
      forall k | 0 <= k < |InsertRow(row, front)|
        ensures SeqOf(InsertRow(row, front)[k]) <= SeqOf(last)
      {
        InsertHas(row, front, InsertRow(row, front)[k]);
      }
    }
  }

  lemma {:induction false} SortAscending(rows: seq<Row>)
    ensures Ascending(Sort(rows))
  {
    if rows != [] {
      SortAscending(rows[..|rows| - 1]);
      InsertAscending(rows[|rows| - 1], Sort(rows[..|rows| - 1]));
    }
  }

  lemma {:induction false} SortHas(rows: seq<Row>, row: Row)
    ensures row in Sort(rows) <==> row in rows
  {
    if rows != [] {
      SortHas(rows[..|rows| - 1], row);
      InsertHas(rows[|rows| - 1], Sort(rows[..|rows| - 1]), row);
      assert rows == rows[..|rows| - 1] + [rows[|rows| - 1]];
    }
  }

  lemma {:induction false} InsertLength(row: Row, sorted: seq<Row>)
    ensures |InsertRow(row, sorted)| == |sorted| + 1
  {
    if sorted != [] {
      InsertLength(row, sorted[..|sorted| - 1]);
    }
  }

  lemma {:induction false} SortLength(rows: seq<Row>)
    ensures |Sort(rows)| == |rows|
  {
    if rows != [] {
      SortLength(rows[..|rows| - 1]);
      InsertLength(rows[|rows| - 1], Sort(rows[..|rows| - 1]));
    }
  }

  lemma SelectEndsLow(sorted: seq<Row>, q: Query, bound: nat)
    requires forall r :: r in sorted ==> SeqOf(r) <= bound
    ensures var s := Select(sorted, q); s != [] ==> SeqOf(s[|s| - 1]) <= bound
  {
    var s := Select(sorted, q);
    if s != [] {
      SelectHas(sorted, q, s[|s| - 1]);
    }
  }

  lemma InsertSnoc(row: Row, sorted: seq<Row>, last: Row)
    requires SeqOf(last) > SeqOf(row)
    ensures InsertRow(row, sorted + [last]) == InsertRow(row, sorted) + [last]
  {
    assert (sorted + [last])[..|sorted|] == sorted;
  }

  lemma InsertAtEnd(row: Row, sorted: seq<Row>)
    requires sorted != [] ==> SeqOf(sorted[|sorted| - 1]) <= SeqOf(row)
    ensures InsertRow(row, sorted) == sorted + [row]
  {
  }

  lemma {:induction false} SelectInsert(row: Row, sorted: seq<Row>, q: Query)
    requires Ascending(sorted)
    ensures Select(InsertRow(row, sorted), q)
         == if Matches(row, q) then InsertRow(row, Select(sorted, q)) else Select(sorted, q)
  {
    if sorted == [] || SeqOf(sorted[|sorted| - 1]) <= SeqOf(row) {
      InsertAtEnd(row, sorted);
      SelectSnoc(sorted, row, q);
      SelectEndsLow(sorted, q, SeqOf(row));
      InsertAtEnd(row, Select(sorted, q));
    } else {
      var front, last := sorted[..|sorted| - 1], sorted[|sorted| - 1];
      assert sorted == front + [last];
      SelectInsert(row, front, q);
      InsertSnoc(row, front, last);
      SelectSnoc(InsertRow(row, front), last, q);
      SelectSnoc(front, last, q);
      InsertSnoc(row, Select(front, q), last);
    }
  }

  /** Filtering and sorting commute. */
  lemma {:induction false} SelectSort(rows: seq<Row>, q: Query)
    ensures Select(Sort(rows), q) == Sort(Select(rows, q))
  {
    if rows != [] {
      var front, last := rows[..|rows| - 1], rows[|rows| - 1];
      SelectSort(front, q);
      SortAscending(front);
      SelectInsert(last, Sort(front), q);
      if Matches(last, q) {
        assert (Select(front, q) + [last])[..|Select(front, q)|] == Select(front, q);
      }
    }
  }

  /** `narrow` asks for no more than `wide`. */
  ghost predicate Narrower(narrow: Query, wide: Query) {
    forall row :: Matches(row, narrow) ==> Matches(row, wide)
  }

  lemma {:induction false} SelectTwice(rows: seq<Row>, wide: Query, narrow: Query)
    requires Narrower(narrow, wide)
    ensures Select(Select(rows, wide), narrow) == Select(rows, narrow)
  {
    if rows != [] {
      var front, last := rows[..|rows| - 1], rows[|rows| - 1];
      SelectTwice(front, wide, narrow);
      if Matches(last, wide) {
        SelectSnoc(Select(front, wide), last, narrow);
      }
    }
  }

  lemma TranscriptNarrows(rows: seq<Row>, wide: Query, narrow: Query)
    requires Narrower(narrow, wide)
    ensures Select(Transcript(rows, wide), narrow) == Transcript(rows, narrow)
  {
    SelectSort(Select(rows, wide), narrow);
    SelectTwice(rows, wide, narrow);
  }

  // ---------------------------------------------------------------- cursors

  /** The same question, cut at a number: what lies up to it, and what lies behind it. */
  function UpTo(q: Query, c: int): Query {
    q.(upTo := Some(c))
  }

  function Since(q: Query, c: int): Query {
    q.(since := Some(c))
  }

  lemma {:induction false} NoneBeyond(rows: seq<Row>, q: Query, c: int)
    requires forall k :: 0 <= k < |rows| ==> SeqOf(rows[k]) <= c
    ensures Select(rows, Since(q, c)) == []
  {
    if rows != [] {
      NoneBeyond(rows[..|rows| - 1], q, c);
      assert SeqOf(rows[|rows| - 1]) <= c;
    }
  }

  lemma {:induction false} AscendingSplits(sorted: seq<Row>, q: Query, c: int)
    requires Ascending(sorted) && q.upTo.None? && (q.since.Some? ==> q.since.value <= c)
    requires forall r :: r in sorted ==> Matches(r, q)
    ensures sorted == Select(sorted, UpTo(q, c)) + Select(sorted, Since(q, c))
  {
    if sorted != [] {
      var front, last := sorted[..|sorted| - 1], sorted[|sorted| - 1];
      assert sorted == front + [last];
      AscendingSplits(front, q, c);
      assert last in sorted;
      if SeqOf(last) <= c {
        NoneBeyond(front, q, c);
      }
    }
  }

  /** For every cursor at or above the query's own, the transcript is what lies up to the cursor
      followed by the query from the cursor. */
  lemma TranscriptSplits(rows: seq<Row>, q: Query, c: int)
    requires q.upTo.None? && (q.since.Some? ==> q.since.value <= c)
    ensures Transcript(rows, q) == Select(Transcript(rows, q), UpTo(q, c)) + Transcript(rows, Since(q, c))
  {
    var s := Transcript(rows, q);
    SortAscending(Select(rows, q));
    forall r | r in s
      ensures Matches(r, q)
    {
      SortHas(Select(rows, q), r);
      SelectHas(rows, q, r);
    }
    AscendingSplits(s, q, c);
    TranscriptNarrows(rows, q, Since(q, c));
  }

  /** A transcript holds exactly the rows asked for, by ascending number: those of the session that are
      stamped, of one of the kinds if any are named, and beyond the cursor if there is one. */
  lemma TranscriptHas(rows: seq<Row>, q: Query, row: Row)
    ensures forall j, k :: 0 <= j < k < |Transcript(rows, q)| ==>
      SeqOf(Transcript(rows, q)[j]) <= SeqOf(Transcript(rows, q)[k])
    ensures row in Transcript(rows, q) <==> row in rows && Matches(row, q)
    ensures row in Transcript(rows, q) && q.upTo.None? <==>
      && q.upTo.None? && row in rows && row.session == q.session && row.stamp.Some?
      && (q.kinds == {} || row.kind in q.kinds)
      && match q.since
         case None => true
         case Some(n) => n < row.stamp.value
  {
    SortAscending(Select(rows, q));
    SortHas(Select(rows, q), row);
    SelectHas(rows, q, row);
  }

  // ---------------------------------------------------------------- the store

  function Bare(session: string): string {
    if "ses_" <= session then session[4..] else session
  }

  /** The session ids are one, or one is the other with the prefix before it. */
  predicate NameSameSession(a: string, b: string) {
    a == b || (a == "ses_" + b && !("ses_" <= b)) || (b == "ses_" + a && !("ses_" <= a))
  }

  /** Meetings are told apart by their ids, with or without prefix. */
  lemma BareAgreeIff(a: string, b: string)
    ensures Bare(a) == Bare(b) <==> NameSameSession(a, b)
  {
    assert "ses_" <= a ==> a == "ses_" + a[4..];
    assert "ses_" <= b ==> b == "ses_" + b[4..];
    assert ("ses_" + a)[4..] == a && ("ses_" + b)[4..] == b;
  }

  /** The first row of an entry, or the number of rows. */
  function Find(rows: seq<Row>, entry: string): (k: nat)
    ensures k <= |rows| && (k < |rows| ==> rows[k].entry == entry)
    ensures forall j :: 0 <= j < k ==> rows[j].entry != entry
  {
    if rows == [] then 0
    else if rows[0].entry == entry then 0
    else 1 + Find(rows[1..], entry)
  }

  function Stamped(rows: seq<Row>, entry: string, n: nat): seq<Row> {
    var k := Find(rows, entry);
    if k < |rows| then rows[k := rows[k].(stamp := Some(n))] else rows
  }

  class MeetingStore {
    var journalIndex: seq<Row>
    var meetingSeq: map<string, nat>

    constructor ()
      ensures journalIndex == [] && meetingSeq == map[]
    {
      journalIndex, meetingSeq := [], map[];
    }

    method InsertJournalIndex(row: Row)
      modifies this`journalIndex
      ensures journalIndex == old(journalIndex) + [row]
    {
      journalIndex := journalIndex + [row];
    }

    method SetJournalIndexMeetingSeq(entry: string, n: nat)
      modifies this`journalIndex
      ensures journalIndex == Stamped(old(journalIndex), entry, n)
    {
      var k := Find(journalIndex, entry);
      if k < |journalIndex| {
        journalIndex := journalIndex[k := journalIndex[k].(stamp := Some(n))];
      }
    }

    /** One more than the last number of this meeting; other meetings keep theirs. */
    method AllocateMeetingSeq(session: string) returns (next: nat)
      modifies this`meetingSeq
      ensures next == 1 + if Bare(session) in old(meetingSeq) then old(meetingSeq)[Bare(session)] else 0
      ensures meetingSeq == old(meetingSeq)[Bare(session) := next]
    {
      var bare := Bare(session);
      next := (if bare in meetingSeq then meetingSeq[bare] else 0) + 1;
      meetingSeq := meetingSeq[bare := next];
    }

    method QueryMeetingJournal(session: string, kinds: set<string>, since: Option<int>) returns (rows: seq<Row>)
      ensures rows == Transcript(journalIndex, Query(Bare(session), kinds, since, None))
    {
      rows := Sort(Select(journalIndex, Query(Bare(session), kinds, since, None)));
    }
  }
}
