/** One parallel run over a frozen event table: what the workers compute, the writer as the loop
    it is, and the end-to-end result (scripts/cieu_to_brain_batch.py). */
module IngestRun {
  import opened Partition
  import opened NearestNodes
  import opened IngestProtocol
  import opened IngestTheorems

  datatype Event = Event(eventId: string, sessionId: string, features: seq<real>)

  /** One row of the activation log; the run's single timestamp is left out. */
  datatype Activation = Activation(query: string, nodeId: string, weight: real, sessionId: string)

  /** What every worker is given. `dist` is projection followed by distance, unseen here. */
  datatype Setup = Setup(nodes: seq<string>, dist: (Event, string) -> real, k: int)

  function Near(su: Setup, e: Event): seq<Scored> {
    TopK(ScoreAll(su.nodes, n => su.dist(e, n)), su.k)
  }

  function Record(e: Event, x: Scored): Activation {
    Activation("cieu_event:" + e.eventId, x.nodeId, Weight(x.dist), e.sessionId)
  }

  function Records(e: Event, near: seq<Scored>): (r: seq<Activation>)
    ensures |r| == |near|
  {
    if near == [] then []
    else Records(e, near[..|near| - 1]) + [Record(e, near[|near| - 1])]
  }

  function EventRows(su: Setup, e: Event): seq<Activation> {
    Records(e, Near(su, e))
  }

  lemma {:induction false} RecordsAt(e: Event, near: seq<Scored>, i: nat)
    requires i < |near|
    ensures Records(e, near)[i] == Record(e, near[i])
  {
    if i < |near| - 1 {
      RecordsAt(e, near[..|near| - 1], i);
    }
  }

  /** Every scored node kept is one of the nodes, at its own distance. */
  lemma KeptNodes(nodes: seq<string>, distTo: string -> real, k: int, i: nat)
    requires i < |TopK(ScoreAll(nodes, distTo), k)|
    ensures var x := TopK(ScoreAll(nodes, distTo), k)[i]; x.nodeId in nodes && x.dist == distTo(x.nodeId)
  {
    var scored := ScoreAll(nodes, distTo);
    TopKNearest(scored, k);
    var x := TopK(scored, k)[i];
    assert x in multiset(TopK(scored, k));
    assert x in scored;
  }

  /** An event's i-th row names the event and its session, and weights one of the nodes by its distance. */
  lemma EventRow(su: Setup, e: Event, i: nat)
    requires i < |EventRows(su, e)|
    ensures var r := EventRows(su, e)[i];
            && r.query == "cieu_event:" + e.eventId && r.sessionId == e.sessionId
            && r.nodeId in su.nodes && r.weight == Weight(su.dist(e, r.nodeId))
                && su.dist(e, r.nodeId) == Near(su, e)[i].dist
  {
    RecordsAt(e, Near(su, e), i);
    KeptNodes(su.nodes, n => su.dist(e, n), su.k, i);
  }

  /** Rows come nearest node first, so weights never rise along them. */
  lemma EventRowsNearestFirst(su: Setup, e: Event, i: nat, j: nat)
    requires i <= j < |EventRows(su, e)|
    ensures var r := EventRows(su, e);
            su.dist(e, r[i].nodeId) <= su.dist(e, r[j].nodeId) && r[j].weight <= r[i].weight
  {
    EventRow(su, e, i);
    EventRow(su, e, j);
    NearSorted(su, e);
    WeightFalls(Near(su, e)[i].dist, Near(su, e)[j].dist);
  }

  lemma NearSorted(su: Setup, e: Event)
    ensures SortedByDist(Near(su, e))
  {
    TopKNearest(ScoreAll(su.nodes, n => su.dist(e, n)), su.k);
  }

  function Payload(su: Setup, events: seq<Event>): (r: seq<seq<Activation>>)
    ensures |r| == |events|
    ensures forall i :: 0 <= i < |events| ==> r[i] == EventRows(su, events[i])
  {
    seq(|events|, i requires 0 <= i < |events| => EventRows(su, events[i]))
  }

  /** The body of a worker's loop for one event. */
  method Activate(su: Setup, e: Event) returns (activations: seq<Activation>)
    ensures activations == EventRows(su, e)
  {
    var nearest := TopKFromCachedNodes(su.nodes, n => su.dist(e, n), su.k);
    activations := [];
    for i := 0 to |nearest|
      invariant activations == Records(e, nearest[..i])
    {
      assert nearest[..i + 1][..i] == nearest[..i];
      activations := activations + [Record(e, nearest[i])];
    }
    assert nearest[..|nearest|] == nearest;
  }

  /** A worker that does not raise puts its events' rows in table order. */
  method WorkerItems(su: Setup, table: seq<Event>, part: Part) returns (puts: seq<seq<Activation>>)
    requires part.offset + part.count <= |table|
    ensures puts == Payload(su, table[part.offset..part.offset + part.count])
  {
    var events := table[part.offset..part.offset + part.count];
    puts := [];
    for i := 0 to |events|
      invariant puts == Payload(su, events[..i])
    {
      var activations := Activate(su, events[i]);
      puts := puts + [activations];
    }
    assert events[..|events|] == events;
  }

  // ---- the writer as a process ---------------------------------------------------

  function ConsumeAll<R>(w: Writer<R>, items: seq<Item<R>>): Writer<R> {
    if items == [] then w else Consume(ConsumeAll(w, items[..|items| - 1]), items[|items| - 1])
  }

  class WriterProcess {
    var sentinelsReceived: nat
    var batch: seq<Activation>
    var totalInserted: nat
    var table: seq<Activation>
    var exited: bool
    ghost var received: seq<Item<Activation>>

    ghost function View(): Writer<Activation>
      reads this
    {
      Writer(received, sentinelsReceived, batch, table, totalInserted, exited)
    }

    constructor ()
      ensures View() == Writer([], 0, [], [], 0, false)
    {
      sentinelsReceived, batch, totalInserted, table, exited, received := 0, [], 0, [], false, [];
    }

    method CommitBatch()
      modifies this
      ensures View() == Commit(old(View()))
    {
      table := table + batch;
      totalInserted := totalInserted + |batch|;
      batch := [];
    }

    method Take(item: Item<Activation>)
      modifies this
      ensures View() == Consume(old(View()), item)
    {
      received := received + [item];
      match item {
        case Sentinel(_) =>
          sentinelsReceived := sentinelsReceived + 1;
        case Batch(_, rows) =>
          batch := batch + rows;
          if |batch| >= WRITER_BATCH_SIZE {
            CommitBatch();
          }
      }
    }

    /** The whole process, fed by the order in which items arrive on the queue. */
    method Drain(arrivals: seq<Item<Activation>>, numWorkers: nat) returns (taken: nat)
      requires View() == Writer([], 0, [], [], 0, false)
      requires CountSentinels(arrivals) >= numWorkers
      modifies this
      ensures taken <= |arrivals| && CountSentinels(arrivals[..taken]) == numWorkers
      ensures taken > 0 ==> CountSentinels(arrivals[..taken - 1]) < numWorkers
      ensures View() == Finish(ConsumeAll(Writer([], 0, [], [], 0, false), arrivals[..taken]))
    {
      taken := 0;
      while sentinelsReceived < numWorkers
        invariant taken <= |arrivals| && !exited
        invariant sentinelsReceived == CountSentinels(arrivals[..taken]) <= numWorkers
        invariant taken > 0 ==> CountSentinels(arrivals[..taken - 1]) < numWorkers
        invariant View() == ConsumeAll(Writer([], 0, [], [], 0, false), arrivals[..taken])
        decreases |arrivals| - taken
      {
        assert arrivals[..|arrivals|] == arrivals;
        assert arrivals[..taken + 1][..taken] == arrivals[..taken];
        Take(arrivals[taken]);
        taken := taken + 1;
      }
      if batch != [] {
        CommitBatch();
      }
      exited := true;
    }
  }

  // ---- the parallel run -------------------------------------------------------------

  /** The queue's size in run_parallel. */
  function QueueSize(total: nat, numWorkers: nat): (size: nat)
    ensures size >= 1
  {
    if total + numWorkers + 10 < 30000 then total + numWorkers + 10 else 30000
  }

  /** A list cut along the parts. */
  ghost function Slices<T>(items: seq<T>, parts: seq<Part>): (r: seq<seq<T>>)
    requires Fits(parts, |items|)
    ensures |r| == |parts|
    ensures forall i :: 0 <= i < |parts| ==> r[i] == items[parts[i].offset..parts[i].offset + parts[i].count]
  {
    seq(|parts|, i requires 0 <= i < |parts| => items[parts[i].offset..parts[i].offset + parts[i].count])
  }

  /** One worker per part; the queue is sized from the requested worker count. */
  ghost function JobFor(su: Setup, events: seq<Event>, parts: seq<Part>, numWorkers: nat): (c: Job<Activation>)
    requires Fits(parts, |events|)
    ensures N(c) == |parts|
  {
    Job(Slices(Payload(su, events), parts), QueueSize(|events|, numWorkers))
  }

  /** Each worker of the job puts what its own read of the table yields. */
  lemma JobMatchesWorkers(su: Setup, events: seq<Event>, parts: seq<Part>, numWorkers: nat, w: nat)
    requires Fits(parts, |events|) && w < |parts|
    ensures JobFor(su, events, parts, numWorkers).payload[w]
         == Payload(su, events[parts[w].offset..parts[w].offset + parts[w].count])
  {
  }

  lemma {:induction false} FlattenSplit<R>(a: seq<seq<R>>, b: seq<seq<R>>)
    ensures Flatten(a + b) == Flatten(a) + Flatten(b)
  {
    if b == [] {
      assert a + b == a;
    } else {
      var init := b[..|b| - 1];
      FlattenSplit(a, init);
      assert (a + b)[..|a + b| - 1] == a + init;
    }
  }

  lemma AllRowsSnoc<R>(ps: seq<seq<seq<R>>>, p: seq<seq<R>>)
    ensures AllRows(ps + [p]) == AllRows(ps) + Flatten(p)
  {
  }

  /** The parts' items, side by side, are the items of the range they tile. */
  lemma {:induction false} SlicesTile<R>(items: seq<seq<R>>, parts: seq<Part>, total: nat)
    requires Tiles(parts, total) && total <= |items|
    ensures AllRows(Slices(items, parts)) == Flatten(items[..total])
    decreases |parts|
  {
    if parts == [] {
      assert items[..0] == [];
    } else {
      var init, p := parts[..|parts| - 1], parts[|parts| - 1];
      SlicesTile(items, init, p.offset);
      LastSlice(items, init, p);
      assert parts == init + [p];
    }
  }

  lemma LastSlice<R>(items: seq<seq<R>>, parts: seq<Part>, p: Part)
    requires Fits(parts + [p], |items|) && Fits(parts, |items|) && p.offset + p.count <= |items|
    requires AllRows(Slices(items, parts)) == Flatten(items[..p.offset])
    ensures AllRows(Slices(items, parts + [p])) == Flatten(items[..p.offset + p.count])
  {
    SlicesSnoc(items, parts, p);
    AllRowsSnoc(Slices(items, parts), items[p.offset..p.offset + p.count]);
    FlattenUpTo(items, p.offset, p.offset + p.count);
  }

  lemma FlattenUpTo<R>(items: seq<seq<R>>, m: nat, n: nat)
    requires m <= n <= |items|
    ensures Flatten(items[..n]) == Flatten(items[..m]) + Flatten(items[m..n])
  {
    assert items[..n] == items[..m] + items[m..n];
    FlattenSplit(items[..m], items[m..n]);
  }

  lemma SlicesSnoc<T>(items: seq<T>, parts: seq<Part>, p: Part)
    requires Fits(parts + [p], |items|) && Fits(parts, |items|) && p.offset + p.count <= |items|
    ensures Slices(items, parts + [p]) == Slices(items, parts) + [items[p.offset..p.offset + p.count]]
  {
  }

  lemma {:induction false} RowCount(su: Setup, events: seq<Event>)
    ensures |Flatten(Payload(su, events))| == |events| * TakeCount(|su.nodes|, su.k)
  {
    if events != [] {
      var init := events[..|events| - 1];
      var e := events[|events| - 1];
      RowCount(su, init);
      assert Payload(su, events) == Payload(su, init) + [EventRows(su, e)];
      FlattenSnoc(Payload(su, init), EventRows(su, e));
      EventRowCount(su, e);
      Distribute(|init|, TakeCount(|su.nodes|, su.k));
    }
  }

  lemma EventRowCount(su: Setup, e: Event)
    ensures |EventRows(su, e)| == TakeCount(|su.nodes|, su.k)
  {
  }

  lemma FlattenSnoc<R>(a: seq<seq<R>>, x: seq<R>)
    ensures Flatten(a + [x]) == Flatten(a) + x
  {
  }

  lemma Distribute(n: nat, m: nat)
    ensures (n + 1) * m == n * m + m
  {
  }

  /** Whatever the interleaving, a run over the slices of a list of batches in which no worker raises
      commits exactly the rows of the list. */
  lemma PartitionedRunDelivers<R>(items: seq<seq<R>>, parts: seq<Part>, c: Job<R>, steps: seq<Step>, s: State<R>)
    requires Tiles(parts, |items|) && c.payload == Slices(items, parts)
    requires Run(c, Init(c), steps, s) && s.writer.exited
    requires Shape(c, s) && forall w :: 0 <= w < N(c) ==> !s.workers[w].raised
    ensures multiset(s.writer.inserted) == multiset(Flatten(items))
    ensures s.writer.totalInserted == |Flatten(items)|
  {
    ExitDeliversAll(c, steps, s);
    SlicesTile(items, parts, |items|);
    assert items[..|items|] == items;
    assert |multiset(s.writer.inserted)| == |multiset(Flatten(items))|;
  }

  /** For every worker count and every interleaving in which no worker raises, the rows committed
      when the writer exits are exactly the top-k activations of every event of the table, each
      event once, and the reported total counts them. */
  lemma ParallelRunIngestsEveryEvent(su: Setup, events: seq<Event>, parts: seq<Part>, numWorkers: nat,
      c: Job<Activation>, steps: seq<Step>, s: State<Activation>)
    requires Tiles(parts, |events|) && c == JobFor(su, events, parts, numWorkers)
    requires Run(c, Init(c), steps, s) && s.writer.exited
    requires Shape(c, s) && forall w :: 0 <= w < N(c) ==> !s.workers[w].raised
    ensures multiset(s.writer.inserted) == multiset(Flatten(Payload(su, events)))
    ensures s.writer.totalInserted
         == |events| * (if su.k < -|su.nodes| then 0 else if su.k < 0 then |su.nodes| + su.k
                        else if su.k <= |su.nodes| then su.k else |su.nodes|)
  {
    PartitionedRunDelivers(Payload(su, events), parts, c, steps, s);
    RowCount(su, events);
  }

  lemma {:induction false} EventsOfSlices<R>(items: seq<seq<R>>, parts: seq<Part>, total: nat)
    requires Tiles(parts, total) && Fits(parts, |items|)
    ensures Events(Slices(items, parts)) == total
    decreases |parts|
  {
    if parts != [] {
      var init, p := parts[..|parts| - 1], parts[|parts| - 1];
      EventsOfSlices(items, init, p.offset);
      SlicesSnoc(items, init, p);
      assert parts == init + [p];
      assert Slices(items, parts)[..|init|] == Slices(items, init);
    }
  }

  /** With fewer than 30000 events, workers and ten to spare together no put ever waits: ten slots are free in
      every reachable state. Otherwise the queue has 30000 slots. */
  lemma QueueNeverFull(su: Setup, events: seq<Event>, parts: seq<Part>, numWorkers: nat, c: Job<Activation>,
      steps: seq<Step>, s: State<Activation>)
    requires Tiles(parts, |events|) && |parts| <= numWorkers && c == JobFor(su, events, parts, numWorkers)
    requires Run(c, Init(c), steps, s)
    ensures |events| + numWorkers + 10 < 30000 ==> Load(s) + 10 <= c.capacity
    ensures |events| + numWorkers + 10 >= 30000 ==> c.capacity == 30000
  {
    QueueHolds(c, steps, s);
    EventsOfSlices(Payload(su, events), parts, |events|);
  }
}
