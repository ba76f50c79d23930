/** Invokes that wait for their executor (`packages/hub-daemon/src/invoke-service.ts`): the queue of
    one space, emptied by flushes that may overlap each other and further enqueues. */
module InvokeQueue {
  import opened SpaceIds
  import opened Wrappers

  type Item = nat

  /** A flush on its way: the queue it took, and how many items it has processed. */
  datatype Flush = Flush(queue: seq<Item>, processed: nat)

  /** `enqueued` and `completed` record the items in the order in which that happened. */
  datatype State = State(pending: seq<Item>, flushes: seq<Flush>, enqueued: seq<Item>, completed: seq<Item>)

  const START := State([], [], [], [])

  datatype Event =
    | Enqueue(item: Item)
    | Begin
    | Complete(flush: nat)
    | Fail(flush: nat)
    | End(flush: nat)

  predicate Busy(f: Flush) {
    f.processed < |f.queue|
  }

  function Rest(f: Flush): seq<Item> {
    if Busy(f) then f.queue[f.processed..] else []
  }

  function Rests(flushes: seq<Flush>): seq<Item> {
    if flushes == [] then [] else Rest(flushes[0]) + Rests(flushes[1..])
  }

  predicate Enabled(s: State, e: Event) {
    match e
    case Complete(f) => f < |s.flushes| && Busy(s.flushes[f])
    case Fail(f) => f < |s.flushes| && Busy(s.flushes[f])
    case End(f) => f < |s.flushes| && !Busy(s.flushes[f])
    case _ => true
  }

  function Without(flushes: seq<Flush>, f: nat): seq<Flush>
    requires f < |flushes|
  {
    flushes[..f] + flushes[f + 1..]
  }

  function Next(s: State, e: Event): State
    requires Enabled(s, e)
  {
    match e
    case Enqueue(item) => s.(pending := s.pending + [item], enqueued := s.enqueued + [item])
    case Begin => if s.pending == [] then s else s.(pending := [], flushes := s.flushes + [Flush(s.pending, 0)])
    case Complete(f) =>
      var flush := s.flushes[f];
      s.(flushes := s.flushes[f := flush.(processed := flush.processed + 1)],
         completed := s.completed + [flush.queue[flush.processed]])
    case Fail(f) => s.(pending := Rest(s.flushes[f]) + s.pending, flushes := Without(s.flushes, f))
    case End(f) => s.(flushes := Without(s.flushes, f))
  }

  ghost predicate StepAt(run: seq<State>, events: seq<Event>, k: nat)
    requires |run| == |events| + 1 && k < |events|
  {
    Enabled(run[k], events[k]) && run[k + 1] == Next(run[k], events[k])
  }

  ghost predicate IsRun(run: seq<State>, events: seq<Event>) {
    && |run| == |events| + 1 && run[0] == START
    && forall k :: 0 <= k < |events| ==> StepAt(run, events, k)
  }

  // ---------------------------------------------------------------- nothing lost, nothing doubled

  predicate Conserved(s: State) {
    multiset(s.enqueued) == multiset(s.completed) + multiset(Rests(s.flushes)) + multiset(s.pending)
  }

  lemma {:induction false} RestsAppend(a: seq<Flush>, b: seq<Flush>)
    ensures Rests(a + b) == Rests(a) + Rests(b)
  {
    if a == [] {
      assert a + b == b;
    } else {
      assert (a + b)[1..] == a[1..] + b;
      RestsAppend(a[1..], b);
    }
  }

  lemma RestsOne(f: Flush)
    ensures Rests([f]) == Rest(f)
  {
    assert [f][1..] == [];
  }

  function Before(s: State, f: nat): seq<Item>
    requires f < |s.flushes|
  {
    Rests(s.flushes[..f])
  }

  function Behind(s: State, f: nat): seq<Item>
    requires f < |s.flushes|
  {
    Rests(s.flushes[f + 1..])
  }

  lemma RestsAround(s: State, f: nat, g: Flush)
    requires f < |s.flushes|
    ensures Rests(s.flushes) == Before(s, f) + Rest(s.flushes[f]) + Behind(s, f)
    ensures Rests(s.flushes[f := g]) == Before(s, f) + Rest(g) + Behind(s, f)
    ensures Rests(Without(s.flushes, f)) == Before(s, f) + Behind(s, f)
  {
    var a, b := s.flushes[..f], s.flushes[f + 1..];
    assert s.flushes == a + [s.flushes[f]] + b && s.flushes[f := g] == a + [g] + b;
    RestsAppend(a, [s.flushes[f]]);
    RestsAppend(a + [s.flushes[f]], b);
    RestsAppend(a, [g]);
    RestsAppend(a + [g], b);
    RestsAppend(a, b);
    RestsOne(s.flushes[f]);
    RestsOne(g);
  }

  lemma RestAdvances(f: Flush)
    requires Busy(f)
    ensures Rest(f) == [f.queue[f.processed]] + Rest(f.(processed := f.processed + 1))
  {
  }

  lemma BeginMoves(s: State)
    ensures var t := Next(s, Begin); Rests(t.flushes) + t.pending == Rests(s.flushes) + s.pending
  {
    if s.pending != [] {
      RestsAppend(s.flushes, [Flush(s.pending, 0)]);
      RestsOne(Flush(s.pending, 0));
    }
  }

  /** Completing moves one item, across what earlier flushes hold, to the completed ones. */
  lemma CompleteEffect(s: State, f: nat) returns (x: Item, r: seq<Item>)
    requires Enabled(s, Complete(f))
    ensures var t := Next(s, Complete(f));
      && t.completed == s.completed + [x] && t.pending == s.pending && t.enqueued == s.enqueued
      && |t.flushes| == |s.flushes|
      && Rests(s.flushes) == Before(s, f) + [x] + r && Rests(t.flushes) == Before(s, f) + r
  {
    var flush := s.flushes[f];
    var more := flush.(processed := flush.processed + 1);
    RestsAround(s, f, more);
    RestAdvances(flush);
    x, r := flush.queue[flush.processed], Rest(more) + Behind(s, f);
    Regroup(Before(s, f), x, Rest(more), Behind(s, f));
  }

  lemma Regroup(a: seq<Item>, x: Item, b: seq<Item>, c: seq<Item>)
    ensures a + ([x] + b) + c == a + [x] + (b + c) && a + b + c == a + (b + c)
  {
  }

  /** Failing moves a flush's items, across what later flushes hold, to the front of the queue. */
  lemma FailEffect(s: State, f: nat)
    requires Enabled(s, Fail(f))
    ensures var t, rest := Next(s, Fail(f)), Rest(s.flushes[f]);
      && t.completed == s.completed && t.pending == rest + s.pending && t.enqueued == s.enqueued
      && |t.flushes| == |s.flushes| - 1 && rest != []
      && Rests(s.flushes) == Before(s, f) + rest + Behind(s, f) && Rests(t.flushes) == Before(s, f) + Behind(s, f)
  {
    RestsAround(s, f, s.flushes[f]);
  }

  lemma EndEffect(s: State, f: nat)
    requires Enabled(s, End(f))
    ensures Rests(Next(s, End(f)).flushes) == Rests(s.flushes)
  {
    RestsAround(s, f, s.flushes[f]);
  }

  lemma CompleteConserves(s: State, f: nat)
    requires Conserved(s) && Enabled(s, Complete(f))
    ensures Conserved(Next(s, Complete(f)))
  {
    var x, r := CompleteEffect(s, f);
    assert multiset(Before(s, f) + [x] + r) == multiset(Before(s, f) + r) + multiset{x};
  }

  lemma BeginConserves(s: State)
    requires Conserved(s)
    ensures Conserved(Next(s, Begin))
  {
    if s.pending != [] {
      RestsAppend(s.flushes, [Flush(s.pending, 0)]);
      RestsOne(Flush(s.pending, 0));
    }
  }

  lemma FailConserves(s: State, f: nat)
    requires Conserved(s) && Enabled(s, Fail(f))
    ensures Conserved(Next(s, Fail(f)))
  {
    FailEffect(s, f);
  }

  lemma StepConserves(s: State, e: Event)
    requires Enabled(s, e) && Conserved(s)
    ensures Conserved(Next(s, e))
  {
    match e {
      case Enqueue(_) =>
      case Begin => BeginConserves(s);
      case Complete(f) => CompleteConserves(s, f);
      case Fail(f) => FailConserves(s, f);
      case End(f) => EndEffect(s, f);
    }
  }

  /** Whatever fails, and however flushes and enqueues overlap: the items enqueued are the ones
      completed, the ones some flush still holds, and the ones still queued. */
  lemma {:induction false} AlwaysConserved(run: seq<State>, events: seq<Event>, n: nat)
    requires IsRun(run, events) && n < |run|
    ensures Conserved(run[n])
  {
    if n > 0 {
      AlwaysConserved(run, events, n - 1);
      assert StepAt(run, events, n - 1);
      StepConserves(run[n - 1], events[n - 1]);
    }
  }

  // ---------------------------------------------------------------- order

  /** What is done, in flight and queued is the original order. */
  predicate InOrder(s: State) {
    s.enqueued == s.completed + Rests(s.flushes) + s.pending
  }

  predicate NoDuplicates(items: seq<Item>) {
    forall j, k :: 0 <= j < k < |items| ==> items[j] != items[k]
  }

  /** The step does not overtake: an item is completed only when no earlier flush holds any, and a
      flush gives items back only when no later one holds any. */
  predicate InTurn(s: State, e: Event)
    requires Enabled(s, e)
  {
    match e
    case Complete(f) => Before(s, f) == []
    case Fail(f) => Behind(s, f) == []
    case _ => true
  }

  lemma MovedLeft(d: seq<Item>, a: seq<Item>, x: Item, r: seq<Item>)
    requires NoDuplicates(d + a + [x] + r)
    ensures d + a + [x] + r == d + [x] + a + r <==> a == []
  {
    if a != [] {
      var whole := d + a + [x] + r;
      assert whole[|d|] == a[0] && whole[|d| + |a|] == x;
      assert (d + [x] + a + r)[|d|] == x;
    } else {
      assert d + a + [x] + r == d + [x] + a + r;
    }
  }

  lemma Swapped(d: seq<Item>, b: seq<Item>, c: seq<Item>, p: seq<Item>)
    requires NoDuplicates(d + b + c + p) && b != []
    ensures d + b + c + p == d + c + b + p <==> c == []
  {
    if c != [] {
      var whole := d + b + c + p;
      assert whole[|d|] == b[0] && whole[|d| + |b|] == c[0];
      assert (d + c + b + p)[|d|] == c[0];
    } else {
      assert d + b + c + p == d + c + b + p;
    }
  }

  lemma CompleteInTurn(s: State, f: nat)
    requires Enabled(s, Complete(f)) && InOrder(s) && NoDuplicates(s.enqueued)
    ensures InOrder(Next(s, Complete(f))) <==> Before(s, f) == []
  {
    var x, r := CompleteEffect(s, f);
    var d, a := s.completed, Before(s, f);
    Regroup4(d, a, x, r, s.pending);
    MovedLeft(d, a, x, r + s.pending);
  }

  lemma Regroup4(d: seq<Item>, a: seq<Item>, x: Item, r: seq<Item>, p: seq<Item>)
    ensures d + (a + [x] + r) + p == d + a + [x] + (r + p)
    ensures d + [x] + (a + r) + p == d + [x] + a + (r + p)
  {
  }

  lemma Regroup5(d: seq<Item>, a: seq<Item>, b: seq<Item>, c: seq<Item>, p: seq<Item>)
    ensures d + (a + b + c) + p == (d + a) + b + c + p
    ensures d + (a + c) + (b + p) == (d + a) + c + b + p
  {
  }

  lemma FailInTurn(s: State, f: nat)
    requires Enabled(s, Fail(f)) && InOrder(s) && NoDuplicates(s.enqueued)
    ensures InOrder(Next(s, Fail(f))) <==> Behind(s, f) == []
  {
    FailEffect(s, f);
    var a, b, c := Before(s, f), Rest(s.flushes[f]), Behind(s, f);
    Regroup5(s.completed, a, b, c, s.pending);
    Swapped(s.completed + a, b, c, s.pending);
  }

  lemma EnqueueInOrder(s: State, item: Item)
    requires InOrder(s)
    ensures InOrder(Next(s, Enqueue(item)))
  {
    assert s.enqueued + [item] == s.completed + Rests(s.flushes) + (s.pending + [item]);
  }

  lemma BeginInOrder(s: State)
    requires InOrder(s)
    ensures InOrder(Next(s, Begin))
  {
    BeginMoves(s);
    var t := Next(s, Begin);
    assert t.completed + (Rests(t.flushes) + t.pending) == s.completed + (Rests(s.flushes) + s.pending) == s.enqueued;
  }

  /** The original order is kept exactly by the steps that do not overtake. */
  lemma InOrderStep(s: State, e: Event)
    requires Enabled(s, e) && InOrder(s) && NoDuplicates(s.enqueued)
    ensures InOrder(Next(s, e)) <==> InTurn(s, e)
  {
    match e {
      case Enqueue(item) => EnqueueInOrder(s, item);
      case Begin => BeginInOrder(s);
      case Complete(f) => CompleteInTurn(s, f);
      case Fail(f) => FailInTurn(s, f);
      case End(f) => EndEffect(s, f);
    }
  }

  /** A flush begins only when no other is on its way. */
  ghost predicate NoOverlap(run: seq<State>, events: seq<Event>, n: nat)
    requires IsRun(run, events) && n < |run|
  {
    forall k :: 0 <= k < n && events[k].Begin? ==> run[k].flushes == []
  }

  lemma CompleteOneFlush(s: State, f: nat)
    requires Enabled(s, Complete(f)) && InOrder(s) && |s.flushes| == 1
    ensures var t := Next(s, Complete(f)); InOrder(t) && |t.flushes| == 1
  {
    var x, r := CompleteEffect(s, f);
    assert Before(s, f) == [];
    Regroup4(s.completed, [], x, r, s.pending);
    Regroup4(s.completed, Before(s, f), x, r, s.pending);
  }

  lemma FailOneFlush(s: State, f: nat)
    requires Enabled(s, Fail(f)) && InOrder(s) && |s.flushes| == 1
    ensures var t := Next(s, Fail(f)); InOrder(t) && |t.flushes| == 0
  {
    FailEffect(s, f);
    assert Before(s, f) == [] && Behind(s, f) == [];
    Regroup5(s.completed, [], Rest(s.flushes[f]), [], s.pending);
  }

  lemma OneFlushStep(s: State, e: Event)
    requires Enabled(s, e) && InOrder(s) && |s.flushes| <= 1 && (e.Begin? ==> s.flushes == [])
    ensures InOrder(Next(s, e)) && |Next(s, e).flushes| <= 1
  {
    match e {
      case Enqueue(item) => EnqueueInOrder(s, item);
      case Begin => BeginInOrder(s);
      case Complete(f) => CompleteOneFlush(s, f);
      case Fail(f) => FailOneFlush(s, f);
      case End(f) => EndEffect(s, f);
    }
  }

  /** Without overlapping flushes the queue keeps the original order, whatever fails and whatever is
      enqueued meanwhile. */
  lemma {:induction false} OrderWithoutOverlap(run: seq<State>, events: seq<Event>, n: nat)
    requires IsRun(run, events) && n < |run| && NoOverlap(run, events, n)
    ensures InOrder(run[n]) && |run[n].flushes| <= 1
  {
    if n > 0 {
      OrderWithoutOverlap(run, events, n - 1);
      assert StepAt(run, events, n - 1);
      OneFlushStep(run[n - 1], events[n - 1]);
    }
  }

  /** With overlapping flushes a later item may be completed first. */
  lemma OverlapReorders() returns (run: seq<State>, events: seq<Event>)
    ensures IsRun(run, events) && |events| == 5
    ensures run[5].enqueued == [1, 2] && run[5].completed == [2] && run[5].flushes == [Flush([1], 0), Flush([2], 1)]
  {
    events := [Enqueue(1), Begin, Enqueue(2), Begin, Complete(1)];
    var first, second := Flush([1], 0), Flush([2], 0);
    run := [START, State([1], [], [1], []), State([], [first], [1], []), State([2], [first], [1, 2], []),
            State([], [first, second], [1, 2], []), State([], [first, Flush([2], 1)], [1, 2], [2])];
    assert [] + [1] == [1] && [1] + [2] == [1, 2] && [first] + [second] == [first, second];
    assert StepAt(run, events, 0) && StepAt(run, events, 1) && StepAt(run, events, 2);
    assert StepAt(run, events, 3) && StepAt(run, events, 4);
  }

  // ---------------------------------------------------------------- one flush as a run

  /** Where some events lead, if they can all happen. */
  function Ran(s: State, events: seq<Event>): Option<State> {
    if events == [] then Some(s)
    else
      match Ran(s, events[..|events| - 1])
      case None => None
      case Some(r) =>
        var e := events[|events| - 1];
        if Enabled(r, e) then Some(Next(r, e)) else None
  }

  function Enqueues(items: seq<Item>): seq<Event> {
    seq(|items|, k requires 0 <= k < |items| => Enqueue(items[k]))
  }

  /** The first `n` items are tried, further ones arriving meanwhile, and go through. */
  function Rounds(meanwhile: seq<seq<Item>>, n: nat): seq<Event>
    requires n <= |meanwhile|
  {
    if n == 0 then [Begin] else Rounds(meanwhile, n - 1) + Enqueues(meanwhile[n - 1]) + [Complete(0)]
  }

  /** A flush that ends, or fails at item `n`. */
  function FlushEvents(meanwhile: seq<seq<Item>>, n: nat, fails: bool): seq<Event>
    requires n <= |meanwhile| && (fails ==> n < |meanwhile|)
  {
    Rounds(meanwhile, n) + if fails then Enqueues(meanwhile[n]) + [Fail(0)] else [End(0)]
  }

  function Joined(parts: seq<seq<Item>>, n: nat): seq<Item>
    requires n <= |parts|
  {
    if n == 0 then [] else Joined(parts, n - 1) + parts[n - 1]
  }

  lemma RanSnoc(s: State, events: seq<Event>, e: Event)
    ensures Ran(s, events + [e]) ==
      match Ran(s, events)
      case None => None
      case Some(r) => if Enabled(r, e) then Some(Next(r, e)) else None
  {
    assert (events + [e])[..|events|] == events;
  }

  lemma {:induction false} RanEnqueues(s: State, events: seq<Event>, items: seq<Item>)
    requires Ran(s, events).Some?
    ensures var r := Ran(s, events).value;
      Ran(s, events + Enqueues(items)) == Some(r.(pending := r.pending + items, enqueued := r.enqueued + items))
  {
    var r := Ran(s, events).value;
    if items == [] {
      assert events + Enqueues(items) == events;
      assert r.pending + items == r.pending && r.enqueued + items == r.enqueued;
    } else {
      var front, last := items[..|items| - 1], items[|items| - 1];
      RanEnqueues(s, events, front);
      assert events + Enqueues(items) == events + Enqueues(front) + [Enqueue(last)];
      RanSnoc(s, events + Enqueues(front), Enqueue(last));
      assert r.pending + front + [last] == r.pending + items && r.enqueued + front + [last] == r.enqueued + items;
    }
  }

  /** A queue that waits, and nothing on its way. */
  function Waiting(queue: seq<Item>): State {
    State(queue, [], queue, [])
  }

  lemma {:induction false} RanRounds(queue: seq<Item>, meanwhile: seq<seq<Item>>, n: nat)
    requires queue != [] && |meanwhile| == |queue| && n <= |queue|
    ensures Ran(Waiting(queue), Rounds(meanwhile, n))
         == Some(State(Joined(meanwhile, n), [Flush(queue, n)], queue + Joined(meanwhile, n), queue[..n]))
  {
    if n == 0 {
      RanSnoc(Waiting(queue), [], Begin);
      assert [] + [Begin] == [Begin] && [] + [Flush(queue, 0)] == [Flush(queue, 0)] && queue + [] == queue;
    } else {
      RanRounds(queue, meanwhile, n - 1);
      RanEnqueues(Waiting(queue), Rounds(meanwhile, n - 1), meanwhile[n - 1]);
      RanSnoc(Waiting(queue), Rounds(meanwhile, n - 1) + Enqueues(meanwhile[n - 1]), Complete(0));
      RoundCompletes(queue, meanwhile, n);
    }
  }

  lemma RoundCompletes(queue: seq<Item>, meanwhile: seq<seq<Item>>, n: nat)
    requires |meanwhile| == |queue| && 0 < n <= |queue|
    ensures var before, more := Joined(meanwhile, n - 1), meanwhile[n - 1];
      var s := State(before + more, [Flush(queue, n - 1)], queue + before + more, queue[..n - 1]);
      Next(s, Complete(0)) == State(Joined(meanwhile, n), [Flush(queue, n)], queue + Joined(meanwhile, n), queue[..n])
  {
    assert queue[..n] == queue[..n - 1] + [queue[n - 1]];
    assert [Flush(queue, n - 1)][0 := Flush(queue, n)] == [Flush(queue, n)];
    assert queue + Joined(meanwhile, n - 1) + meanwhile[n - 1] == queue + (Joined(meanwhile, n - 1) + meanwhile[n - 1]);
  }

  lemma RoundFails(queue: seq<Item>, meanwhile: seq<seq<Item>>, n: nat)
    requires |meanwhile| == |queue| && n < |queue|
    ensures var before, more := Joined(meanwhile, n), meanwhile[n];
      var s := State(before + more, [Flush(queue, n)], queue + before + more, queue[..n]);
      var came := Joined(meanwhile, n + 1);
      Next(s, Fail(0)) == State(queue[n..] + came, [], queue + came, queue[..n])
  {
    assert Without([Flush(queue, n)], 0) == [];
    assert queue + Joined(meanwhile, n) + meanwhile[n] == queue + (Joined(meanwhile, n) + meanwhile[n]);
  }

  lemma RoundsEnd(queue: seq<Item>, came: seq<Item>)
    ensures Next(State(came, [Flush(queue, |queue|)], queue + came, queue), End(0)) == State(came, [], queue + came, queue)
  {
    assert Without([Flush(queue, |queue|)], 0) == [];
  }

  lemma FailedFlushIsARun(queue: seq<Item>, meanwhile: seq<seq<Item>>, n: nat)
    requires |meanwhile| == |queue| && n < |queue|
    ensures var came := Joined(meanwhile, n + 1);
      Ran(Waiting(queue), FlushEvents(meanwhile, n, true)) == Some(State(queue[n..] + came, [], queue + came, queue[..n]))
  {
    var rounds, arrivals := Rounds(meanwhile, n), Enqueues(meanwhile[n]);
    RanRounds(queue, meanwhile, n);
    RanEnqueues(Waiting(queue), rounds, meanwhile[n]);
    RanSnoc(Waiting(queue), rounds + arrivals, Fail(0));
    RoundFails(queue, meanwhile, n);
    assert rounds + (arrivals + [Fail(0)]) == rounds + arrivals + [Fail(0)];
  }

  lemma EndedFlushIsARun(queue: seq<Item>, meanwhile: seq<seq<Item>>)
    requires |meanwhile| == |queue| > 0
    ensures var came := Joined(meanwhile, |queue|);
      Ran(Waiting(queue), FlushEvents(meanwhile, |queue|, false)) == Some(State(came, [], queue + came, queue))
  {
    RanRounds(queue, meanwhile, |queue|);
    assert queue[..|queue|] == queue;
    RanSnoc(Waiting(queue), Rounds(meanwhile, |queue|), End(0));
    RoundsEnd(queue, Joined(meanwhile, |queue|));
  }

  /** What a flush leaves: what it did not get through, before what came meanwhile. */
  function Left(queue: seq<Item>, meanwhile: seq<seq<Item>>, n: nat): seq<Item>
    requires |meanwhile| == |queue| && n <= |queue|
  {
    if n < |queue| then queue[n..] + Joined(meanwhile, n + 1) else Joined(meanwhile, n)
  }

  /** The events of a flush lead from a waiting queue to what it leaves. */
  lemma FlushIsARun(queue: seq<Item>, meanwhile: seq<seq<Item>>, n: nat)
    requires |meanwhile| == |queue| > 0 && n <= |queue|
    ensures var end := Ran(Waiting(queue), FlushEvents(meanwhile, n, n < |queue|));
      end.Some? && end.value.pending == Left(queue, meanwhile, n) && end.value.completed == queue[..n]
  {
    if n < |queue| {
      FailedFlushIsARun(queue, meanwhile, n);
    } else {
      EndedFlushIsARun(queue, meanwhile);
    }
  }

  // ---------------------------------------------------------------- the service

  class InvokeService {
    var pendingInvokes: map<string, seq<Item>>

    function Pending(space: string): seq<Item>
      reads this
    {
      if Bare(space) in pendingInvokes then pendingInvokes[Bare(space)] else []
    }

    constructor ()
      ensures pendingInvokes == map[]
    {
      pendingInvokes := map[];
    }

    method Add(space: string, item: Item)
      modifies this
      ensures pendingInvokes == old(pendingInvokes)[Bare(space) := old(Pending(space)) + [item]]
    {
      pendingInvokes := pendingInvokes[Bare(space) := Pending(space) + [item]];
    }

    method Take(space: string) returns (queue: seq<Item>)
      modifies this
      ensures queue == old(Pending(space)) && Pending(space) == []
      ensures forall other :: Bare(other) != Bare(space) ==> Pending(other) == old(Pending(other))
    {
      queue := Pending(space);
      if queue == [] {
        return;
      }
      pendingInvokes := pendingInvokes - {Bare(space)};
    }

    /** One flush.  `ok[k]` says whether item `k` goes through, and `meanwhile[k]` what is enqueued
        for the same space while it is tried.  The queue ends where the events of the flush lead. */
    method FlushQueuedInvokes(space: string, ok: seq<bool>, meanwhile: seq<seq<Item>>) returns (processed: nat)
      requires |ok| == |meanwhile| == |Pending(space)|
      modifies this
      ensures processed <= |old(Pending(space))|
      ensures forall k :: 0 <= k < processed ==> ok[k]
      ensures processed < |ok| ==> !ok[processed]
      ensures Pending(space) == Left(old(Pending(space)), meanwhile, processed)
      ensures old(Pending(space)) != [] ==>
        var end := Ran(Waiting(old(Pending(space))), FlushEvents(meanwhile, processed, processed < |ok|));
        && end.Some? && end.value.pending == Pending(space) && end.value.completed == old(Pending(space))[..processed]
      ensures forall other :: Bare(other) != Bare(space) ==> Pending(other) == old(Pending(other))
    {
      var queue := Take(space);
      processed := 0;
      while processed < |queue|
        invariant processed <= |queue| && Pending(space) == Joined(meanwhile, processed)
        invariant forall k :: 0 <= k < processed ==> ok[k]
        invariant forall other :: Bare(other) != Bare(space) ==> Pending(other) == old(Pending(other))
      {
        AddAll(space, meanwhile[processed]);
        if !ok[processed] {
          FlushIsARun(queue, meanwhile, processed);
          pendingInvokes := pendingInvokes[Bare(space) := queue[processed..] + Pending(space)];
          return;
        }
        processed := processed + 1;
      }
      if queue != [] {
        FlushIsARun(queue, meanwhile, processed);
      }
    }

    method AddAll(space: string, items: seq<Item>)
      modifies this
      ensures Pending(space) == old(Pending(space)) + items
      ensures forall other :: Bare(other) != Bare(space) ==> Pending(other) == old(Pending(other))
    {
      for i := 0 to |items|
        invariant Pending(space) == old(Pending(space)) + items[..i]
        invariant forall other :: Bare(other) != Bare(space) ==> Pending(other) == old(Pending(other))
      {
        Add(space, items[i]);
        assert items[..i + 1] == items[..i] + [items[i]];
      }
      assert items[..|items|] == items;
    }
  }
}
