/** The worker/writer protocol of the parallel ingestion run (scripts/cieu_to_brain_batch.py):
    each worker puts one item per event and then a sentinel on a bounded queue, one writer drains
    it until it has seen every sentinel, and the parent joins the workers and then the writer.

    The queue is a multiprocessing queue: a put takes one of `capacity` slots and leaves the item
    in the producer's own buffer, a feeder moves it to the shared pipe, and a get takes the head
    of the pipe and frees the slot. Arrival order is therefore fixed per producer only. */
module IngestProtocol {

  const WRITER_BATCH_SIZE := 500

  datatype Item<R> = Batch(from: nat, rows: seq<R>) | Sentinel(from: nat)

  /** What each worker will send, event by event, and the size of the queue. */
  datatype Job<R> = Job(payload: seq<seq<seq<R>>>, capacity: nat)

  datatype Worker = Worker(sent: nat, raised: bool, finished: bool)

  /** `received` is the history of items the writer has taken. */
  datatype Writer<R> = Writer(received: seq<Item<R>>, sentinels: nat, batch: seq<R>,
                              inserted: seq<R>, totalInserted: nat, exited: bool)

  /** `joined` counts the processes the parent has joined: the workers in order, then the writer. */
  datatype State<R> = State(workers: seq<Worker>, bufs: seq<seq<Item<R>>>, pipe: seq<Item<R>>,
                            writer: Writer<R>, joined: nat)

  datatype Step = Put(w: nat) | Raise(w: nat) | PutSentinel(w: nat) | Feed(w: nat) | Get | Exit | Join

  function N<R>(c: Job<R>): nat { |c.payload| }

  function Init<R>(c: Job<R>): State<R> {
    State(seq(N(c), _ => Worker(0, false, false)), seq(N(c), _ => []), [], Writer([], 0, [], [], 0, false), 0)
  }

  // ---- the writer's loop body and its final flush ----------------------------

  function Commit<R>(w: Writer<R>): Writer<R> {
    w.(inserted := w.inserted + w.batch, totalInserted := w.totalInserted + |w.batch|, batch := [])
  }

  function Consume<R>(w: Writer<R>, item: Item<R>): Writer<R> {
    var w1 := w.(received := w.received + [item]);
    match item
    case Sentinel(_) => w1.(sentinels := w.sentinels + 1)
    case Batch(_, rows) =>
      var w2 := w1.(batch := w.batch + rows);
      if |w2.batch| >= WRITER_BATCH_SIZE then Commit(w2) else w2
  }

  function Finish<R>(w: Writer<R>): Writer<R> {
    (if w.batch != [] then Commit(w) else w).(exited := true)
  }

  // ---- steps -----------------------------------------------------------------

  function BufLoad<R>(bufs: seq<seq<Item<R>>>): nat {
    if bufs == [] then 0 else BufLoad(bufs[..|bufs| - 1]) + |bufs[|bufs| - 1]|
  }

  /** Slots of the queue in use. */
  function Load<R>(s: State<R>): nat { |s.pipe| + BufLoad(s.bufs) }

  ghost predicate Shape<R>(c: Job<R>, s: State<R>) {
    |s.workers| == |s.bufs| == N(c)
  }

  ghost predicate Enabled<R>(c: Job<R>, s: State<R>, a: Step)
    requires Shape(c, s)
  {
    match a
    case Put(w) =>
      w < N(c) && !s.workers[w].raised && !s.workers[w].finished && s.workers[w].sent < |c.payload[w]|
          && Load(s) < c.capacity
    case Raise(w) =>
      w < N(c) && !s.workers[w].raised && !s.workers[w].finished && s.workers[w].sent < |c.payload[w]|
    case PutSentinel(w) =>
      && w < N(c) && !s.workers[w].finished && Load(s) < c.capacity
      && (s.workers[w].raised || s.workers[w].sent >= |c.payload[w]|)
    case Feed(w) => w < N(c) && s.bufs[w] != []
    case Get => !s.writer.exited && s.writer.sentinels < N(c) && s.pipe != []
    case Exit => !s.writer.exited && s.writer.sentinels >= N(c)
    case Join =>
      if s.joined < N(c) then s.workers[s.joined].finished && s.bufs[s.joined] == []
      else s.joined == N(c) && s.writer.exited
  }

  function Apply<R>(c: Job<R>, s: State<R>, a: Step): (t: State<R>)
    requires Shape(c, s) && Enabled(c, s, a)
    ensures Shape(c, t)
  {
    match a
    case Put(w) =>
      var k := s.workers[w];
      s.(workers := s.workers[w := k.(sent := k.sent + 1)],
         bufs := s.bufs[w := s.bufs[w] + [Batch(w, c.payload[w][k.sent])]])
    case Raise(w) => s.(workers := s.workers[w := s.workers[w].(raised := true)])
    case PutSentinel(w) =>
      s.(workers := s.workers[w := s.workers[w].(finished := true)], bufs := s.bufs[w := s.bufs[w] + [Sentinel(w)]])
    case Feed(w) => s.(bufs := s.bufs[w := s.bufs[w][1..]], pipe := s.pipe + [s.bufs[w][0]])
    case Get => s.(pipe := s.pipe[1..], writer := Consume(s.writer, s.pipe[0]))
    case Exit => s.(writer := Finish(s.writer))
    case Join => s.(joined := s.joined + 1)
  }

  /** A run is a sequence of steps, each enabled when it is taken. */
  ghost predicate Run<R>(c: Job<R>, s: State<R>, steps: seq<Step>, t: State<R>)
    requires Shape(c, s)
    decreases steps
  {
    if steps == [] then t == s
    else Enabled(c, s, steps[0]) && Run(c, Apply(c, s, steps[0]), steps[1..], t)
  }

  ghost predicate Done<R>(c: Job<R>, s: State<R>) {
    s.writer.exited && s.joined == N(c) + 1
  }

  // ---- per-producer projections ------------------------------------------------

  /** Worker w's items in q, in order. */
  ghost function Proj<R>(q: seq<Item<R>>, w: nat): seq<Item<R>> {
    if q == [] then []
    else
      var last := q[|q| - 1];
      Proj(q[..|q| - 1], w) + (if last.from == w then [last] else [])
  }

  lemma ProjSnoc<R>(q: seq<Item<R>>, x: Item<R>, w: nat)
    ensures Proj(q + [x], w) == Proj(q, w) + (if x.from == w then [x] else [])
  {
  }

  lemma {:induction false} ProjConcat<R>(p: seq<Item<R>>, q: seq<Item<R>>, w: nat)
    ensures Proj(p + q, w) == Proj(p, w) + Proj(q, w)
  {
    if q == [] {
      assert p + q == p;
    } else {
      var init := q[..|q| - 1];
      assert p + q == (p + init) + [q[|q| - 1]];
      ProjSnoc(p + init, q[|q| - 1], w);
      ProjConcat(p, init, w);
    }
  }

  ghost function Batches<R>(w: nat, payload: seq<seq<R>>): (r: seq<Item<R>>)
    ensures |r| == |payload|
    ensures forall i :: 0 <= i < |r| ==> r[i] == Batch(w, payload[i])
  {
    seq(|payload|, i requires 0 <= i < |payload| => Batch(w, payload[i]))
  }

  /** Everything worker w has put so far. */
  ghost function Sent<R>(c: Job<R>, s: State<R>, w: nat): seq<Item<R>>
    requires Shape(c, s) && w < N(c) && s.workers[w].sent <= |c.payload[w]|
  {
    Batches(w, c.payload[w][..s.workers[w].sent]) + (if s.workers[w].finished then [Sentinel(w)] else [])
  }

  ghost function CountSentinels<R>(q: seq<Item<R>>): nat {
    if q == [] then 0 else CountSentinels(q[..|q| - 1]) + (if q[|q| - 1].Sentinel? then 1 else 0)
  }

  ghost function ItemRows<R>(x: Item<R>): seq<R> {
    match x case Sentinel(_) => [] case Batch(_, rows) => rows
  }

  ghost function Rows<R>(q: seq<Item<R>>): seq<R> {
    if q == [] then [] else Rows(q[..|q| - 1]) + ItemRows(q[|q| - 1])
  }

  lemma CountSnoc<R>(q: seq<Item<R>>, x: Item<R>)
    ensures CountSentinels(q + [x]) == CountSentinels(q) + (if x.Sentinel? then 1 else 0)
  {
  }

  lemma RowsSnoc<R>(q: seq<Item<R>>, x: Item<R>)
    ensures Rows(q + [x]) == Rows(q) + ItemRows(x)
  {
  }

  // ---- the invariant -----------------------------------------------------------

  ghost predicate WorkerInv<R>(c: Job<R>, s: State<R>, w: nat)
    requires Shape(c, s) && w < N(c)
  {
    var k := s.workers[w];
    && k.sent <= |c.payload[w]|
    && (k.finished && !k.raised ==> k.sent == |c.payload[w]|)
    // what the writer took, what is in flight and what is buffered is exactly what was put, in order
    && Proj(s.writer.received, w) + Proj(s.pipe, w) + s.bufs[w] == Sent(c, s, w)
  }

  ghost predicate WriterInv<R>(c: Job<R>, w: Writer<R>) {
    && w.sentinels == CountSentinels(w.received) <= N(c)
    && w.inserted + w.batch == Rows(w.received)
    && w.totalInserted == |w.inserted|
    && |w.batch| < WRITER_BATCH_SIZE
    && (w.exited ==> w.batch == [] && w.sentinels == N(c))
  }

  ghost predicate Inv<R>(c: Job<R>, s: State<R>) {
    && Shape(c, s)
    && (forall w :: 0 <= w < N(c) ==> WorkerInv(c, s, w))
    && (forall i :: 0 <= i < |s.pipe| ==> s.pipe[i].from < N(c))
    && (forall i :: 0 <= i < |s.writer.received| ==> s.writer.received[i].from < N(c))
    && WriterInv(c, s.writer)
    && Load(s) <= c.capacity
    && s.joined <= N(c) + 1
    && (forall w :: 0 <= w < s.joined && w < N(c) ==> s.workers[w].finished && s.bufs[w] == [])
    && (s.joined > N(c) ==> s.writer.exited)
  }

  lemma {:induction false} BufLoadUpdate<R>(bufs: seq<seq<Item<R>>>, w: nat, b: seq<Item<R>>)
    requires w < |bufs|
    ensures BufLoad(bufs[w := b]) == BufLoad(bufs) - |bufs[w]| + |b|
  {
    var init := bufs[..|bufs| - 1];
    if w == |bufs| - 1 {
      assert bufs[w := b][..|bufs| - 1] == init;
    } else {
      BufLoadUpdate(init, w, b);
      assert bufs[w := b][..|bufs| - 1] == init[w := b];
    }
  }

  lemma {:induction false} BufLoadEmpty<R>(bufs: seq<seq<Item<R>>>)
    requires forall w :: 0 <= w < |bufs| ==> bufs[w] == []
    ensures BufLoad(bufs) == 0
  {
    if bufs != [] { BufLoadEmpty(bufs[..|bufs| - 1]); }
  }

  lemma InitInv<R>(c: Job<R>)
    ensures Inv(c, Init(c))
  {
    BufLoadEmpty(Init(c).bufs);
    forall w | 0 <= w < N(c) ensures WorkerInv(c, Init(c), w) {
      assert c.payload[w][..0] == [];
    }
  }

  lemma PutKeepsWorker<R>(c: Job<R>, s: State<R>, w: nat)
    requires Inv(c, s) && Enabled(c, s, Put(w))
    ensures WorkerInv(c, Apply(c, s, Put(w)), w)
  {
    var t := Apply(c, s, Put(w));
    assert WorkerInv(c, s, w);
    var n := s.workers[w].sent;
    var x := Batch(w, c.payload[w][n]);
    assert c.payload[w][..n + 1] == c.payload[w][..n] + [c.payload[w][n]];
    assert Batches(w, c.payload[w][..n + 1]) == Batches(w, c.payload[w][..n]) + [x];
    assert Sent(c, t, w) == Sent(c, s, w) + [x];
  }

  lemma PutSentinelKeepsWorker<R>(c: Job<R>, s: State<R>, w: nat)
    requires Inv(c, s) && Enabled(c, s, PutSentinel(w))
    ensures WorkerInv(c, Apply(c, s, PutSentinel(w)), w)
  {
    assert WorkerInv(c, s, w);
    assert Sent(c, Apply(c, s, PutSentinel(w)), w) == Sent(c, s, w) + [Sentinel(w)];
  }

  lemma FeedKeepsWorker<R>(c: Job<R>, s: State<R>, v: nat, w: nat)
    requires Inv(c, s) && Enabled(c, s, Feed(v)) && w < N(c)
    ensures WorkerInv(c, Apply(c, s, Feed(v)), w)
  {
    assert WorkerInv(c, s, w) && WorkerInv(c, s, v);
    var x := s.bufs[v][0];
    FeederOrigin(c, s, v);
    ProjSnoc(s.pipe, x, w);
    var got, piped, buf := Proj(s.writer.received, w), Proj(s.pipe, w), s.bufs[w];
    if v == w {
      assert buf == [x] + buf[1..];
      assert got + (piped + [x]) + buf[1..] == got + piped + buf;
    } else {
      assert piped + [] == piped;
    }
  }

  /** Moving the head of one queue to the end of another keeps every producer's order. */
  lemma ProjMove<R>(p: seq<Item<R>>, q: seq<Item<R>>, w: nat)
    requires q != []
    ensures Proj(p + [q[0]], w) + Proj(q[1..], w) == Proj(p, w) + Proj(q, w)
  {
    ProjConcat(p + [q[0]], q[1..], w);
    ProjConcat(p, q, w);
    assert (p + [q[0]]) + q[1..] == p + q;
  }

  lemma GetKeepsWorker<R>(c: Job<R>, s: State<R>, w: nat)
    requires Inv(c, s) && Enabled(c, s, Get) && w < N(c)
    ensures WorkerInv(c, Apply(c, s, Get), w)
  {
    assert WorkerInv(c, s, w);
    ProjMove(s.writer.received, s.pipe, w);
    assert Apply(c, s, Get).writer.received == s.writer.received + [s.pipe[0]];
  }

  lemma WorkerStepInv<R>(c: Job<R>, s: State<R>, a: Step, w: nat)
    requires Inv(c, s) && Enabled(c, s, a) && w < N(c)
    ensures WorkerInv(c, Apply(c, s, a), w)
  {
    assert WorkerInv(c, s, w);
    match a
    case Put(v) => if v == w { PutKeepsWorker(c, s, w); }
    case Raise(v) =>
    case PutSentinel(v) => if v == w { PutSentinelKeepsWorker(c, s, w); }
    case Feed(v) => FeedKeepsWorker(c, s, v, w);
    case Get => GetKeepsWorker(c, s, w);
    case Exit =>
    case Join =>
  }

  /** A buffer holds only its own worker's items. */
  lemma FeederOrigin<R>(c: Job<R>, s: State<R>, w: nat)
    requires Shape(c, s) && w < N(c) && WorkerInv(c, s, w) && s.bufs[w] != []
    ensures s.bufs[w][0].from == w
  {
    var before := Proj(s.writer.received, w) + Proj(s.pipe, w);
    assert s.bufs[w][0] == (before + s.bufs[w])[|before|];
    assert s.bufs[w][0] == Sent(c, s, w)[|before|];
  }

  lemma ConsumeInv<R>(c: Job<R>, w: Writer<R>, x: Item<R>)
    requires WriterInv(c, w) && w.sentinels < N(c)
    ensures WriterInv(c, Consume(w, x).(exited := false))
  {
  }

  lemma StepKeepsLoad<R>(c: Job<R>, s: State<R>, a: Step)
    requires Inv(c, s) && Enabled(c, s, a)
    ensures Load(Apply(c, s, a)) <= c.capacity
  {
    var t := Apply(c, s, a);
    match a
    case Put(w) => BufLoadUpdate(s.bufs, w, t.bufs[w]);
    case PutSentinel(w) => BufLoadUpdate(s.bufs, w, t.bufs[w]);
    case Feed(w) => BufLoadUpdate(s.bufs, w, t.bufs[w]);
    case _ =>
  }

  lemma StepKeepsOrigins<R>(c: Job<R>, s: State<R>, a: Step)
    requires Inv(c, s) && Enabled(c, s, a)
    ensures forall i :: 0 <= i < |Apply(c, s, a).pipe| ==> Apply(c, s, a).pipe[i].from < N(c)
    ensures forall i :: 0 <= i < |Apply(c, s, a).writer.received| ==> Apply(c, s, a).writer.received[i].from < N(c)
  {
    if a.Feed? { FeederOrigin(c, s, a.w); }
  }

  lemma StepKeepsWriter<R>(c: Job<R>, s: State<R>, a: Step)
    requires Inv(c, s) && Enabled(c, s, a)
    ensures WriterInv(c, Apply(c, s, a).writer)
  {
    if a.Get? { ConsumeInv(c, s.writer, s.pipe[0]); }
    if a.Exit? { assert s.writer.inserted + [] == s.writer.inserted; }
  }

  lemma StepInv<R>(c: Job<R>, s: State<R>, a: Step)
    requires Inv(c, s) && Enabled(c, s, a)
    ensures Inv(c, Apply(c, s, a))
  {
    var t := Apply(c, s, a);
    forall w | 0 <= w < N(c) ensures WorkerInv(c, t, w) { WorkerStepInv(c, s, a, w); }
    StepKeepsLoad(c, s, a);
    StepKeepsOrigins(c, s, a);
    StepKeepsWriter(c, s, a);
  }

  lemma {:induction false} RunInv<R>(c: Job<R>, s: State<R>, steps: seq<Step>, t: State<R>)
    requires Inv(c, s) && Run(c, s, steps, t)
    ensures Inv(c, t)
    decreases steps
  {
    if steps != [] {
      StepInv(c, s, steps[0]);
      RunInv(c, Apply(c, s, steps[0]), steps[1..], t);
    }
  }
}
