/** Appending to a meeting while a reader polls it
    (`packages/hub-core/src/meetings/journal.ts` over `packages/hub-persistence/src/memory.ts`).

    An append takes a number, inserts its row, and stamps the row, with awaits in between, so the
    appends of a meeting may overlap; the reader passes the last number it saw as its cursor. */
module MeetingPolling {
  import opened MeetingJournal
  import opened Wrappers

  /** An append on its way. */
  datatype Job = Job(session: string, kind: string, number: nat, inserted: bool)

  /** `session` is the meeting the reader follows; `used` are the entry ids given out. */
  datatype State = State(
    session: string, rows: seq<Row>, counters: map<string, nat>, jobs: map<string, Job>, used: set<string>,
    cursor: nat, seen: seq<Row>)

  datatype Event =
    | Allocate(session: string, kind: string, entry: string)
    | Insert(entry: string)
    | Stamp(entry: string)
    | Fail(entry: string)
    | Poll

  function Start(session: string): State {
    State(session, [], map[], map[], {}, 0, [])
  }

  function Counter(s: State, session: string): nat {
    if session in s.counters then s.counters[session] else 0
  }

  function All(s: State): Query {
    Query(s.session, {}, None, None)
  }

  /** What a poll of the reader returns. */
  function Batch(s: State): seq<Row> {
    Transcript(s.rows, Since(All(s), s.cursor))
  }

  predicate Enabled(s: State, e: Event) {
    match e
    case Allocate(_, _, entry) => entry !in s.used
    case Insert(entry) => entry in s.jobs && !s.jobs[entry].inserted
    case Stamp(entry) => entry in s.jobs && s.jobs[entry].inserted
    case Fail(entry) => entry in s.jobs
    case Poll => true
  }

  function AfterAllocate(s: State, session: string, kind: string, entry: string): State {
    var n := Counter(s, session) + 1;
    s.(counters := s.counters[session := n], jobs := s.jobs[entry := Job(session, kind, n, false)],
       used := s.used + {entry})
  }

  function AfterInsert(s: State, entry: string): State
    requires entry in s.jobs
  {
    var job := s.jobs[entry];
    s.(rows := s.rows + [Row(entry, job.session, job.kind, None)], jobs := s.jobs[entry := job.(inserted := true)])
  }

  function AfterStamp(s: State, entry: string): State
    requires entry in s.jobs
  {
    s.(rows := Stamped(s.rows, entry, s.jobs[entry].number), jobs := s.jobs - {entry})
  }

  function AfterPoll(s: State): State {
    var batch := Batch(s);
    s.(seen := s.seen + batch, cursor := if batch == [] then s.cursor else SeqOf(batch[|batch| - 1]))
  }

  function Next(s: State, e: Event): State
    requires Enabled(s, e)
  {
    match e
    case Allocate(session, kind, entry) => AfterAllocate(s, session, kind, entry)
    case Insert(entry) => AfterInsert(s, entry)
    case Stamp(entry) => AfterStamp(s, entry)
    case Fail(entry) => s.(jobs := s.jobs - {entry})
    case Poll => AfterPoll(s)
  }

  ghost predicate StepAt(run: seq<State>, events: seq<Event>, k: nat)
    requires |run| == |events| + 1 && k < |events|
  {
    Enabled(run[k], events[k]) && run[k + 1] == Next(run[k], events[k])
  }

  ghost predicate IsRun(run: seq<State>, events: seq<Event>) {
    && |run| == |events| + 1 && run[0] == Start(run[0].session)
    && forall k :: 0 <= k < |events| ==> StepAt(run, events, k)
  }

  // ---------------------------------------------------------------- rows and jobs fit together

  predicate JobFits(s: State, entry: string)
    requires entry in s.jobs
  {
    var job, k := s.jobs[entry], Find(s.rows, entry);
    && entry in s.used && 1 <= job.number <= Counter(s, job.session)
    && (if job.inserted then k < |s.rows| && s.rows[k] == Row(entry, job.session, job.kind, None) else k == |s.rows|)
  }

  predicate RowFits(s: State, k: nat)
    requires k < |s.rows|
  {
    var row := s.rows[k];
    && row.entry in s.used && Find(s.rows, row.entry) == k
    && (row.stamp.Some? ==> 1 <= row.stamp.value <= Counter(s, row.session))
  }

  predicate JobsFit(s: State) {
    forall entry :: entry in s.jobs ==> JobFits(s, entry)
  }

  predicate RowsFit(s: State) {
    forall k :: 0 <= k < |s.rows| ==> RowFits(s, k)
  }

  /** No number of a meeting is given twice. */
  predicate NumbersDiffer(s: State) {
    && (forall j, k :: 0 <= j < k < |s.rows| && s.rows[j].session == s.rows[k].session && s.rows[j].stamp.Some? ==>
          s.rows[j].stamp != s.rows[k].stamp)
    && (forall a, b :: a in s.jobs && b in s.jobs && a != b && s.jobs[a].session == s.jobs[b].session ==>
          s.jobs[a].number != s.jobs[b].number)
    && (forall k, a :: 0 <= k < |s.rows| && a in s.jobs && s.rows[k].session == s.jobs[a].session ==>
          s.rows[k].stamp != Some(s.jobs[a].number))
  }

  /** Every row the reader has seen is still there, unchanged, and its cursor was given out. */
  predicate ReaderFits(s: State) {
    && s.cursor <= Counter(s, s.session)
    && forall r :: r in s.seen ==> r in s.rows && r.stamp.Some?
  }

  predicate Fits(s: State) {
    JobsFit(s) && RowsFit(s) && NumbersDiffer(s) && ReaderFits(s)
  }

  lemma {:induction false} FindSnoc(rows: seq<Row>, row: Row, entry: string)
    ensures Find(rows + [row], entry)
         == if Find(rows, entry) < |rows| then Find(rows, entry)
            else if row.entry == entry then |rows| else |rows| + 1
  {
    if rows == [] {
      assert [row][1..] == [];
    } else {
      assert (rows + [row])[1..] == rows[1..] + [row];
      FindSnoc(rows[1..], row, entry);
    }
  }

  /** Stamping changes no entry id. */
  lemma {:induction false} FindStamped(rows: seq<Row>, k: nat, n: nat, entry: string)
    requires k < |rows|
    ensures Find(rows[k := rows[k].(stamp := Some(n))], entry) == Find(rows, entry)
  {
    if k > 0 {
      assert rows[k := rows[k].(stamp := Some(n))][1..] == rows[1..][k - 1 := rows[k].(stamp := Some(n))];
      FindStamped(rows[1..], k - 1, n, entry);
    } else {
      assert rows[0 := rows[0].(stamp := Some(n))][1..] == rows[1..];
    }
  }

  /** Counters that only grow keep every row where it fits. */
  lemma RowsStayFit(s: State, t: State)
    requires RowsFit(s) && t.rows == s.rows && s.used <= t.used
    requires forall m :: Counter(s, m) <= Counter(t, m)
    ensures RowsFit(t)
  {
    forall k | 0 <= k < |t.rows|
      ensures RowFits(t, k)
    {
      assert RowFits(s, k);
    }
  }

  lemma AllocateJobsFit(s: State, session: string, kind: string, entry: string)
    requires JobsFit(s) && RowsFit(s) && entry !in s.used
    ensures JobsFit(AfterAllocate(s, session, kind, entry))
  {
    var t := AfterAllocate(s, session, kind, entry);
    forall a | a in t.jobs
      ensures JobFits(t, a)
    {
      if a == entry {
        assert forall k :: 0 <= k < |s.rows| ==> RowFits(s, k) && s.rows[k].entry != entry;
      } else {
        assert JobFits(s, a);
      }
    }
  }

  lemma AllocateNumbersDiffer(s: State, session: string, kind: string, entry: string)
    requires Fits(s) && entry !in s.used
    ensures NumbersDiffer(AfterAllocate(s, session, kind, entry))
  {
    var t := AfterAllocate(s, session, kind, entry);
    assert forall a :: a in s.jobs ==> JobFits(s, a);
    forall k, a | 0 <= k < |t.rows| && a in t.jobs && t.rows[k].session == t.jobs[a].session
      ensures t.rows[k].stamp != Some(t.jobs[a].number)
    {
      assert RowFits(s, k);
    }
  }

  lemma AllocateFits(s: State, session: string, kind: string, entry: string)
    requires Fits(s) && entry !in s.used
    ensures Fits(AfterAllocate(s, session, kind, entry))
  {
    AllocateJobsFit(s, session, kind, entry);
    AllocateNumbersDiffer(s, session, kind, entry);
    RowsStayFit(s, AfterAllocate(s, session, kind, entry));
  }

  lemma InsertJobsFit(s: State, entry: string)
    requires JobsFit(s) && entry in s.jobs && !s.jobs[entry].inserted
    ensures JobsFit(AfterInsert(s, entry))
  {
    var t := AfterInsert(s, entry);
    assert JobFits(s, entry);
    forall a | a in t.jobs
      ensures JobFits(t, a)
    {
      assert JobFits(s, a);
      FindSnoc(s.rows, t.rows[|s.rows|], a);
    }
  }

  lemma InsertRowsFit(s: State, entry: string)
    requires RowsFit(s) && entry in s.jobs && JobFits(s, entry) && !s.jobs[entry].inserted
    ensures RowsFit(AfterInsert(s, entry))
  {
    var t := AfterInsert(s, entry);
    forall k | 0 <= k < |t.rows|
      ensures RowFits(t, k)
    {
      if k < |s.rows| {
        assert RowFits(s, k);
      }
      FindSnoc(s.rows, t.rows[|s.rows|], t.rows[k].entry);
    }
  }

  lemma InsertFits(s: State, entry: string)
    requires Fits(s) && entry in s.jobs && !s.jobs[entry].inserted
    ensures Fits(AfterInsert(s, entry))
  {
    assert JobFits(s, entry);
    InsertJobsFit(s, entry);
    InsertRowsFit(s, entry);
    assert NumbersDiffer(AfterInsert(s, entry));
  }

  lemma StampEffect(s: State, entry: string) returns (k: nat)
    requires Fits(s) && entry in s.jobs && s.jobs[entry].inserted
    ensures k < |s.rows| && k == Find(s.rows, entry)
    ensures var job := s.jobs[entry];
      s.rows[k] == Row(entry, job.session, job.kind, None)
      && AfterStamp(s, entry).rows == s.rows[k := Row(entry, job.session, job.kind, Some(job.number))]
  {
    assert JobFits(s, entry);
    k := Find(s.rows, entry);
  }

  lemma StampJobsFit(s: State, entry: string)
    requires Fits(s) && entry in s.jobs && s.jobs[entry].inserted
    ensures JobsFit(AfterStamp(s, entry)) && RowsFit(AfterStamp(s, entry))
  {
    var k := StampEffect(s, entry);
    var t := AfterStamp(s, entry);
    assert JobFits(s, entry);
    forall a | a in t.jobs
      ensures JobFits(t, a)
    {
      assert JobFits(s, a);
      FindStamped(s.rows, k, s.jobs[entry].number, a);
    }
    forall j | 0 <= j < |t.rows|
      ensures RowFits(t, j)
    {
      assert RowFits(s, j);
      FindStamped(s.rows, k, s.jobs[entry].number, t.rows[j].entry);
    }
  }

  lemma StampReaderFits(s: State, entry: string)
    requires Fits(s) && entry in s.jobs && s.jobs[entry].inserted
    ensures ReaderFits(AfterStamp(s, entry)) && NumbersDiffer(AfterStamp(s, entry))
  {
    var k := StampEffect(s, entry);
    var t := AfterStamp(s, entry);
    forall r | r in t.seen
      ensures r in t.rows && r.stamp.Some?
    {
      var j :| 0 <= j < |s.rows| && s.rows[j] == r;
      assert t.rows[j] == r;
    }
  }

  lemma JobsStayFit(s: State, t: State)
    requires JobsFit(s) && t.rows == s.rows && t.used == s.used && t.counters == s.counters
    requires forall a :: a in t.jobs ==> a in s.jobs && t.jobs[a] == s.jobs[a]
    ensures JobsFit(t)
  {
    forall a | a in t.jobs
      ensures JobFits(t, a)
    {
      assert JobFits(s, a);
    }
  }

  lemma PollFits(s: State)
    requires Fits(s)
    ensures Fits(AfterPoll(s))
  {
    var t, batch := AfterPoll(s), Batch(s);
    JobsStayFit(s, t);
    RowsStayFit(s, t);
    forall r | r in batch
      ensures r in s.rows && Matches(r, Since(All(s), s.cursor))
    {
      TranscriptHas(s.rows, Since(All(s), s.cursor), r);
    }
    if batch != [] {
      var last := batch[|batch| - 1];
      assert last in batch;
      var j :| 0 <= j < |s.rows| && s.rows[j] == last;
      assert RowFits(s, j);
    }
  }

  lemma FailFits(s: State, entry: string)
    requires Fits(s) && entry in s.jobs
    ensures Fits(s.(jobs := s.jobs - {entry}))
  {
    var t := s.(jobs := s.jobs - {entry});
    JobsStayFit(s, t);
    RowsStayFit(s, t);
  }

  lemma StepFits(s: State, e: Event)
    requires Enabled(s, e) && Fits(s)
    ensures Fits(Next(s, e))
  {
    match e {
      case Allocate(session, kind, entry) => AllocateFits(s, session, kind, entry);
      case Insert(entry) => InsertFits(s, entry);
      case Stamp(entry) =>
        StampJobsFit(s, entry);
        StampReaderFits(s, entry);
      case Fail(entry) => FailFits(s, entry);
      case Poll => PollFits(s);
    }
  }

  lemma {:induction false} AlwaysFits(run: seq<State>, events: seq<Event>, n: nat)
    requires IsRun(run, events) && n < |run|
    ensures Fits(run[n])
  {
    if n > 0 {
      AlwaysFits(run, events, n - 1);
      assert StepAt(run, events, n - 1);
      StepFits(run[n - 1], events[n - 1]);
    }
  }

  // ---------------------------------------------------------------- what the reader has seen

  /** The reader has seen exactly the transcript up to its cursor. */
  predicate CaughtUp(s: State) {
    s.seen == Transcript(s.rows, UpTo(All(s), s.cursor))
  }

  /** The step stamps a row of the reader's meeting at or below its cursor. */
  predicate Late(s: State, e: Event) {
    && e.Stamp? && e.entry in s.jobs && s.jobs[e.entry].session == s.session
    && s.jobs[e.entry].number <= s.cursor
  }

  lemma {:induction false} SelectUpdate(rows: seq<Row>, k: nat, row: Row, q: Query)
    requires k < |rows| && !Matches(rows[k], q)
    ensures !Matches(row, q) ==> Select(rows[k := row], q) == Select(rows, q)
    ensures Matches(row, q) ==> |Select(rows[k := row], q)| == |Select(rows, q)| + 1
  {
    var front, last := rows[..|rows| - 1], rows[|rows| - 1];
    if k < |front| {
      assert rows[k := row][..|front|] == front[k := row];
      SelectUpdate(front, k, row, q);
    } else {
      assert rows[k := row][..|front|] == front;
    }
  }

  lemma StampCatches(s: State, entry: string)
    requires Fits(s) && CaughtUp(s) && entry in s.jobs && s.jobs[entry].inserted
    ensures CaughtUp(AfterStamp(s, entry)) <==> !Late(s, Stamp(entry))
  {
    var q, t := UpTo(All(s), s.cursor), AfterStamp(s, entry);
    var k := StampEffect(s, entry);
    SelectUpdate(s.rows, k, t.rows[k], q);
    SortLength(Select(s.rows, q));
    SortLength(Select(t.rows, q));
  }

  lemma {:induction false} SelectAll(rows: seq<Row>, q: Query)
    requires forall r :: r in rows ==> Matches(r, q)
    ensures Select(rows, q) == rows
  {
    if rows != [] {
      assert rows == rows[..|rows| - 1] + [rows[|rows| - 1]];
      SelectAll(rows[..|rows| - 1], q);
    }
  }

  /** A poll of a reader that is caught up completes the transcript. */
  lemma PollCompletes(s: State)
    requires CaughtUp(s)
    ensures AfterPoll(s).seen == Transcript(s.rows, All(s)) && CaughtUp(AfterPoll(s))
  {
    var q, t := All(s), AfterPoll(s);
    TranscriptSplits(s.rows, q, s.cursor);
    TranscriptNarrows(s.rows, q, UpTo(q, s.cursor));
    var full := Transcript(s.rows, q);
    assert t.seen == full;
    forall r | r in full
      ensures Matches(r, UpTo(q, t.cursor))
    {
      TranscriptHas(s.rows, q, r);
      PollReaches(s, r);
    }
    SelectAll(full, UpTo(q, t.cursor));
    TranscriptNarrows(s.rows, q, UpTo(q, t.cursor));
  }

  /** The new cursor is at or above every row of the meeting. */
  lemma PollReaches(s: State, r: Row)
    requires r in s.rows && Matches(r, All(s))
    ensures r.stamp.value <= AfterPoll(s).cursor
  {
    var q, batch := Since(All(s), s.cursor), Batch(s);
    TranscriptHas(s.rows, q, r);
    if r.stamp.value > s.cursor {
      assert r in batch;
      var k :| 0 <= k < |batch| && batch[k] == r;
    } else if batch != [] {
      TranscriptHas(s.rows, q, batch[|batch| - 1]);
    }
  }

  lemma InsertCatches(s: State, entry: string)
    requires CaughtUp(s) && entry in s.jobs
    ensures CaughtUp(AfterInsert(s, entry))
  {
    var job := s.jobs[entry];
    SelectSnoc(s.rows, Row(entry, job.session, job.kind, None), UpTo(All(s), s.cursor));
  }

  /** A caught-up reader stays so exactly through the steps that are not late. */
  lemma CaughtUpStep(s: State, e: Event)
    requires Enabled(s, e) && Fits(s) && CaughtUp(s)
    ensures CaughtUp(Next(s, e)) <==> !Late(s, e)
  {
    match e {
      case Allocate(_, _, _) =>
      case Insert(entry) => InsertCatches(s, entry);
      case Stamp(entry) => StampCatches(s, entry);
      case Fail(_) =>
      case Poll => PollCompletes(s);
    }
  }

  // ---------------------------------------------------------------- a missed row

  /** A row of the meeting at or below the cursor that the reader has not seen. */
  predicate Missed(s: State, k: nat) {
    && k < |s.rows| && Matches(s.rows[k], UpTo(All(s), s.cursor)) && s.rows[k] !in s.seen
  }

  lemma MissedBreaks(s: State, k: nat)
    requires Missed(s, k)
    ensures !CaughtUp(s)
  {
    TranscriptHas(s.rows, UpTo(All(s), s.cursor), s.rows[k]);
  }

  lemma LateMisses(s: State, e: Event) returns (k: nat)
    requires Enabled(s, e) && Fits(s) && Late(s, e)
    ensures Missed(Next(s, e), k) && Next(s, e).rows[k].entry == e.entry
  {
    k := StampEffect(s, e.entry);
    var row := Next(s, e).rows[k];
    forall j | 0 <= j < |s.rows| && s.rows[j].entry == e.entry
      ensures j == k
    {
      assert RowFits(s, j);
    }
    assert row !in s.rows;
  }

  /** No later poll returns it: the cursor never goes back. */
  lemma MissedStays(s: State, e: Event, k: nat)
    requires Enabled(s, e) && Fits(s) && Missed(s, k)
    ensures Missed(Next(s, e), k) && Next(s, e).rows[k] == s.rows[k]
  {
    match e {
      case Allocate(_, _, _) =>
      case Insert(_) =>
      case Stamp(entry) =>
        var j := StampEffect(s, entry);
        assert j != k;
      case Fail(_) =>
      case Poll =>
        TranscriptHas(s.rows, Since(All(s), s.cursor), s.rows[k]);
        var batch := Batch(s);
        if batch != [] {
          TranscriptHas(s.rows, Since(All(s), s.cursor), batch[|batch| - 1]);
        }
    }
  }

  // ---------------------------------------------------------------- the theorems

  ghost predicate NoneLate(run: seq<State>, events: seq<Event>, n: nat)
    requires IsRun(run, events) && n < |run|
  {
    forall k :: 0 <= k < n ==> !Late(run[k], events[k])
  }

  lemma {:induction false} NoneLateCatchesUp(run: seq<State>, events: seq<Event>, n: nat)
    requires IsRun(run, events) && n < |run| && NoneLate(run, events, n)
    ensures CaughtUp(run[n])
  {
    if n > 0 {
      NoneLateCatchesUp(run, events, n - 1);
      AlwaysFits(run, events, n - 1);
      assert StepAt(run, events, n - 1);
      CaughtUpStep(run[n - 1], events[n - 1]);
    }
  }

  lemma {:induction false} LateIsForGood(run: seq<State>, events: seq<Event>, i: nat, n: nat) returns (k: nat)
    requires IsRun(run, events) && i < n < |run| && Late(run[i], events[i])
    ensures Missed(run[n], k) && run[n].rows[k].entry == events[i].entry
  {
    assert StepAt(run, events, n - 1);
    AlwaysFits(run, events, n - 1);
    if n == i + 1 {
      k := LateMisses(run[i], events[i]);
    } else {
      k := LateIsForGood(run, events, i, n - 1);
      MissedStays(run[n - 1], events[n - 1], k);
    }
  }

  /** However appends and polls interleave, the reader has seen exactly the transcript up to its
      cursor if and only if no row was stamped at or below the cursor it then had.  A row that was
      is never seen. */
  lemma CaughtUpIff(run: seq<State>, events: seq<Event>, n: nat)
    requires IsRun(run, events) && n < |run|
    ensures CaughtUp(run[n]) <==> NoneLate(run, events, n)
  {
    if NoneLate(run, events, n) {
      NoneLateCatchesUp(run, events, n);
    } else {
      var i :| 0 <= i < n && Late(run[i], events[i]);
      var k := LateIsForGood(run, events, i, n);
      MissedBreaks(run[n], k);
    }
  }

  /** One more step of a run. */
  lemma Extend(run: seq<State>, events: seq<Event>, e: Event) returns (run': seq<State>, events': seq<Event>)
    requires IsRun(run, events) && Enabled(run[|events|], e)
    ensures IsRun(run', events') && events' == events + [e]
    ensures run' == run + [Next(run[|events|], e)]
  {
    run', events' := run + [Next(run[|events|], e)], events + [e];
    forall k | 0 <= k < |events'|
      ensures StepAt(run', events', k)
    {
      assert k < |events| ==> StepAt(run, events, k);
    }
  }

  /** Two appends begin, and the one with the later number is stamped. */
  lemma SecondIsStamped(session: string) returns (run: seq<State>, events: seq<Event>)
    ensures IsRun(run, events) && |events| == 4
    ensures run[4] ==
      State(session, [Row("b", session, "said", Some(2))], map[session := 2], map["a" := Job(session, "said", 1, false)],
            {"a", "b"}, 0, [])
  {
    var a, b := Job(session, "said", 1, false), Job(session, "said", 2, false);
    run, events := [Start(session)], [];
    run, events := Extend(run, events, Allocate(session, "said", "a"));
    assert run[1] == State(session, [], map[session := 1], map["a" := a], {"a"}, 0, []);
    run, events := Extend(run, events, Allocate(session, "said", "b"));
    assert run[2] == State(session, [], map[session := 2], map["a" := a, "b" := b], {"a", "b"}, 0, []);
    run, events := Extend(run, events, Insert("b"));
    assert run[3] == run[2].(rows := [Row("b", session, "said", None)], jobs := map["a" := a, "b" := b.(inserted := true)]);
    run, events := Extend(run, events, Stamp("b"));
    assert run[4].jobs == map["a" := a];
  }

  /** The first append is overtaken: the second one, which took the later number, is stamped and
      polled before the first row is stamped. */
  lemma OvertakenAppendIsMissed(session: string) returns (run: seq<State>, events: seq<Event>, k: nat)
    ensures IsRun(run, events) && |events| == 8 && events[7] == Poll
    ensures Missed(run[8], k) && run[8].rows[k].entry == "a"
  {
    run, events := SecondIsStamped(session);
    var s := run[4];
    assert s.rows[0] in s.rows;
    PollReaches(s, s.rows[0]);
    run, events := Extend(run, events, Poll);
    run, events := Extend(run, events, Insert("a"));
    assert Late(run[6], Stamp("a"));
    run, events := Extend(run, events, Stamp("a"));
    run, events := Extend(run, events, Poll);
    k := LateIsForGood(run, events, 6, 8);
  }

  // ---------------------------------------------------------------- appends one after another

  /** No append to the reader's meeting begins while another is on its way. */
  predicate Serial(s: State, e: Event) {
    e.Allocate? && e.session == s.session ==> forall a :: a in s.jobs ==> s.jobs[a].session != s.session
  }

  /** At most one append to the meeting is on its way, and its number is still ahead of everybody. */
  predicate InLine(s: State) {
    forall a :: a in s.jobs && s.jobs[a].session == s.session ==>
      && s.cursor < s.jobs[a].number
      && (forall k :: 0 <= k < |s.rows| && s.rows[k].session == s.session && s.rows[k].stamp.Some? ==>
            s.rows[k].stamp.value < s.jobs[a].number)
      && (forall b :: b in s.jobs && s.jobs[b].session == s.session ==> b == a)
  }

  lemma AllocateInLine(s: State, e: Event)
    requires e.Allocate? && Enabled(s, e) && Fits(s) && InLine(s) && Serial(s, e)
    ensures InLine(Next(s, e))
  {
    forall k | 0 <= k < |s.rows| && s.rows[k].session == s.session && s.rows[k].stamp.Some?
      ensures s.rows[k].stamp.value <= Counter(s, s.session)
    {
      assert RowFits(s, k);
    }
  }

  lemma PollInLine(s: State)
    requires Fits(s) && InLine(s)
    ensures InLine(AfterPoll(s))
  {
    var batch := Batch(s);
    if batch != [] {
      var last := batch[|batch| - 1];
      TranscriptHas(s.rows, Since(All(s), s.cursor), last);
      var k :| 0 <= k < |s.rows| && s.rows[k] == last;
    }
  }

  lemma InsertInLine(s: State, entry: string)
    requires Fits(s) && InLine(s) && entry in s.jobs && !s.jobs[entry].inserted
    ensures InLine(AfterInsert(s, entry))
  {
    assert JobFits(s, entry);
  }

  lemma StampInLine(s: State, entry: string)
    requires Fits(s) && InLine(s) && entry in s.jobs && s.jobs[entry].inserted
    ensures InLine(AfterStamp(s, entry)) && !Late(s, Stamp(entry))
  {
    var k := StampEffect(s, entry);
  }

  lemma StepInLine(s: State, e: Event)
    requires Enabled(s, e) && Fits(s) && InLine(s) && Serial(s, e)
    ensures InLine(Next(s, e)) && !Late(s, e)
  {
    match e {
      case Allocate(_, _, _) => AllocateInLine(s, e);
      case Insert(entry) => InsertInLine(s, entry);
      case Stamp(entry) => StampInLine(s, entry);
      case Fail(_) =>
      case Poll => PollInLine(s);
    }
  }

  /** Appends that do not overlap never stamp late; an append done in one step is the simplest case. */
  lemma {:induction false} SerialAppendsAreNeverLate(run: seq<State>, events: seq<Event>, n: nat)
    requires IsRun(run, events) && n < |run| && forall k :: 0 <= k < n ==> Serial(run[k], events[k])
    ensures InLine(run[n]) && NoneLate(run, events, n)
  {
    if n > 0 {
      SerialAppendsAreNeverLate(run, events, n - 1);
      AlwaysFits(run, events, n - 1);
      assert StepAt(run, events, n - 1);
      StepInLine(run[n - 1], events[n - 1]);
    }
  }

  // ---------------------------------------------------------------- strictly increasing

  predicate StrictlyAscending(rows: seq<Row>) {
    forall j, k :: 0 <= j < k < |rows| ==> SeqOf(rows[j]) < SeqOf(rows[k])
  }

  predicate SeqsDiffer(rows: seq<Row>) {
    forall j, k :: 0 <= j < k < |rows| ==> SeqOf(rows[j]) != SeqOf(rows[k])
  }

  lemma {:induction false} SelectDiffers(rows: seq<Row>, q: Query)
    requires forall j, k :: 0 <= j < k < |rows| && rows[j].session == rows[k].session && rows[j].stamp.Some? ==>
      rows[j].stamp != rows[k].stamp
    ensures SeqsDiffer(Select(rows, q))
  {
    if rows != [] {
      var front, last := rows[..|rows| - 1], rows[|rows| - 1];
      SelectDiffers(front, q);
      if Matches(last, q) {
        forall j | 0 <= j < |Select(front, q)|
          ensures SeqOf(Select(front, q)[j]) != SeqOf(last)
        {
          SelectHas(front, q, Select(front, q)[j]);
          var i :| 0 <= i < |front| && front[i] == Select(front, q)[j];
          assert rows[i] == front[i];
        }
      }
    }
  }

  lemma {:induction false} InsertStrict(row: Row, sorted: seq<Row>)
    requires StrictlyAscending(sorted) && forall k :: 0 <= k < |sorted| ==> SeqOf(sorted[k]) != SeqOf(row)
    ensures StrictlyAscending(InsertRow(row, sorted))
  {
    if sorted != [] && SeqOf(sorted[|sorted| - 1]) > SeqOf(row) {
      var front, last := sorted[..|sorted| - 1], sorted[|sorted| - 1];
      InsertStrict(row, front);
      forall k | 0 <= k < |InsertRow(row, front)|
        ensures SeqOf(InsertRow(row, front)[k]) < SeqOf(last)
      {
        InsertHas(row, front, InsertRow(row, front)[k]);
      }
    }
  }

  lemma {:induction false} SortStrict(rows: seq<Row>)
    requires SeqsDiffer(rows)
    ensures StrictlyAscending(Sort(rows))
  {
    if rows != [] {
      var front, last := rows[..|rows| - 1], rows[|rows| - 1];
      SortStrict(front);
      forall k | 0 <= k < |Sort(front)|
        ensures SeqOf(Sort(front)[k]) != SeqOf(last)
      {
        SortHas(front, Sort(front)[k]);
        var i :| 0 <= i < |front| && front[i] == Sort(front)[k];
        assert rows[i] == front[i];
      }
      InsertStrict(last, Sort(front));
    }
  }

  /** As long as no stamp is late, a poll leaves the reader with every stamped row of the meeting
      exactly once, by strictly increasing number. */
  lemma PollsSeeEverythingOnce(run: seq<State>, events: seq<Event>, n: nat, row: Row)
    requires IsRun(run, events) && n < |events| && events[n].Poll? && NoneLate(run, events, n)
    ensures var t := run[n + 1];
      StrictlyAscending(t.seen) && (row in t.seen <==> row in t.rows && Matches(row, All(t)))
  {
    var s := run[n];
    NoneLateCatchesUp(run, events, n);
    AlwaysFits(run, events, n);
    assert StepAt(run, events, n);
    PollCompletes(s);
    SelectDiffers(s.rows, All(s));
    SortStrict(Select(s.rows, All(s)));
    TranscriptHas(s.rows, All(s), row);
  }
}
