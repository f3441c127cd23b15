/** What the ingestion protocol guarantees over every interleaving
    (scripts/cieu_to_brain_batch.py): it never blocks, it always ends, nothing is lost or doubled. */
module IngestTheorems {
  import opened IngestProtocol

  // ---- the writer's count of sentinels says who is finished -------------------

  ghost function Sum(f: nat -> nat, n: nat): nat {
    if n == 0 then 0 else Sum(f, n - 1) + f(n - 1)
  }

  lemma {:induction false} SumBump(f: nat -> nat, g: nat -> nat, w: nat, n: nat)
    requires g(w) == f(w) + 1 && forall v: nat :: v != w ==> g(v) == f(v)
    ensures Sum(g, n) == Sum(f, n) + (if w < n then 1 else 0)
  {
    if n > 0 { SumBump(f, g, w, n - 1); }
  }

  lemma {:induction false} SumSame(f: nat -> nat, g: nat -> nat, n: nat)
    requires forall v: nat :: v < n ==> g(v) == f(v)
    ensures Sum(g, n) == Sum(f, n)
  {
    if n > 0 { SumSame(f, g, n - 1); }
  }

  /** A sum of terms, each at most one, that reaches its bound has every term equal to one. */
  lemma {:induction false} FullSum(f: nat -> nat, n: nat)
    requires forall w: nat :: w < n ==> f(w) <= 1
    ensures Sum(f, n) <= n
    ensures Sum(f, n) == n <==> forall w: nat :: w < n ==> f(w) == 1
  {
    if n > 0 { FullSum(f, n - 1); }
  }

  /** How many sentinels of worker w are in q, as a function of w. */
  ghost function SentinelCounts<R>(q: seq<Item<R>>): nat -> nat {
    (w: nat) => CountSentinels(Proj(q, w))
  }

  lemma CountProjSnoc<R>(q: seq<Item<R>>, x: Item<R>, w: nat)
    ensures CountSentinels(Proj(q + [x], w))
        == CountSentinels(Proj(q, w)) + (if x.Sentinel? && x.from == w then 1 else 0)
  {
    ProjSnoc(q, x, w);
    CountSnoc(Proj(q, w), x);
    assert Proj(q, w) + [] == Proj(q, w);
  }

  lemma SentinelsSnoc<R>(q: seq<Item<R>>, x: Item<R>, n: nat)
    requires x.from < n
    ensures Sum(SentinelCounts(q + [x]), n) == Sum(SentinelCounts(q), n) + (if x.Sentinel? then 1 else 0)
  {
    var f, g := SentinelCounts(q), SentinelCounts(q + [x]);
    forall w: nat ensures g(w) == f(w) + (if x.Sentinel? && x.from == w then 1 else 0) { CountProjSnoc(q, x, w); }
    if x.Sentinel? { SumBump(f, g, x.from, n); } else { SumSame(f, g, n); }
  }

  lemma {:induction false} NoSentinels<R>(n: nat)
    ensures Sum(SentinelCounts<R>([]), n) == 0
  {
    if n > 0 { NoSentinels<R>(n - 1); }
  }

  lemma {:induction false} SentinelsByProducer<R>(q: seq<Item<R>>, n: nat)
    requires forall i :: 0 <= i < |q| ==> q[i].from < n
    ensures CountSentinels(q) == Sum(SentinelCounts(q), n)
  {
    if q == [] {
      NoSentinels<R>(n);
    } else {
      var init, x := q[..|q| - 1], q[|q| - 1];
      assert q == init + [x];
      SentinelsByProducer(init, n);
      SentinelsSnoc(init, x, n);
    }
  }

  lemma {:induction false} CountNoSentinel<R>(q: seq<Item<R>>)
    requires forall i :: 0 <= i < |q| ==> q[i].Batch?
    ensures CountSentinels(q) == 0
  {
    if q != [] { CountNoSentinel(q[..|q| - 1]); }
  }

  /** Worker w has finished and everything it sent has reached the writer. */
  ghost predicate Drained<R>(c: Job<R>, s: State<R>, w: nat)
    requires Inv(c, s) && w < N(c)
  {
    assert WorkerInv(c, s, w);
    s.workers[w].finished && s.bufs[w] == [] && Proj(s.pipe, w) == [] && Proj(s.writer.received, w) == Sent(c, s, w)
  }

  /** The writer has taken a worker's sentinel only if it has taken all the worker sent. */
  lemma ReceivedSentinelLast<R>(c: Job<R>, s: State<R>, w: nat)
    requires Inv(c, s) && w < N(c)
    ensures CountSentinels(Proj(s.writer.received, w)) <= 1
    ensures CountSentinels(Proj(s.writer.received, w)) == 1 ==> Drained(c, s, w)
  {
    assert WorkerInv(c, s, w);
    var got := Proj(s.writer.received, w);
    var rest := Proj(s.pipe, w) + s.bufs[w];
    var all := Sent(c, s, w);
    assert got + rest == all;
    assert forall i :: 0 <= i < |got| ==> got[i] == all[i];
    if |got| == |all| && s.workers[w].finished {
      assert rest == [];
      assert got == all;
      CountNoSentinel(got[..|got| - 1]);
    } else {
      CountNoSentinel(got);
    }
  }

  lemma {:induction false} ProjOfMember<R>(q: seq<Item<R>>, i: nat)
    requires i < |q|
    ensures Proj(q, q[i].from) != []
  {
    if i < |q| - 1 {
      ProjOfMember(q[..|q| - 1], i);
    }
  }

  lemma AllSentinelsMeansDrained<R>(c: Job<R>, s: State<R>)
    requires Inv(c, s) && s.writer.sentinels == N(c)
    ensures forall w :: 0 <= w < N(c) ==> Drained(c, s, w)
  {
    var counts := SentinelCounts(s.writer.received);
    SentinelsByProducer(s.writer.received, N(c));
    forall w: nat | w < N(c) ensures counts(w) <= 1 { ReceivedSentinelLast(c, s, w); }
    FullSum(counts, N(c));
    forall w: nat | w < N(c) ensures Drained(c, s, w) {
      assert counts(w) == 1;
      ReceivedSentinelLast(c, s, w);
    }
  }

  /** When the writer has all its sentinels, every worker is drained and the queue is empty. */
  lemma ExitMeansDrained<R>(c: Job<R>, s: State<R>)
    requires Inv(c, s) && s.writer.sentinels == N(c)
    ensures forall w :: 0 <= w < N(c) ==> Drained(c, s, w)
    ensures Load(s) == 0
  {
    AllSentinelsMeansDrained(c, s);
    forall w | 0 <= w < N(c) ensures s.bufs[w] == [] { assert Drained(c, s, w); }
    BufLoadEmpty(s.bufs);
    if s.pipe != [] {
      var w := s.pipe[0].from;
      assert Drained(c, s, w);
      ProjOfMember(s.pipe, 0);
    }
  }

  // ---- never stuck ---------------------------------------------------------------

  /** Every reachable state that is not the end of the run has an enabled step, and one that
      does not depend on a worker failing. */
  lemma NeverStuck<R>(c: Job<R>, s: State<R>) returns (a: Step)
    requires Inv(c, s) && c.capacity >= 1 && !Done(c, s)
    ensures Enabled(c, s, a) && !a.Raise?
  {
    if s.writer.exited {
      ExitMeansDrained(c, s);
      if s.joined < N(c) { assert Drained(c, s, s.joined); }
      a := Join;
    } else if s.writer.sentinels >= N(c) {
      a := Exit;
    } else if s.pipe != [] {
      a := Get;
    } else if w :| 0 <= w < N(c) && s.bufs[w] != [] {
      a := Feed(w);
    } else {
      BufLoadEmpty(s.bufs);
      if w :| 0 <= w < N(c) && !s.workers[w].finished {
        a := if !s.workers[w].raised && s.workers[w].sent < |c.payload[w]| then Put(w) else PutSentinel(w);
      } else {
        EverythingTaken(c, s);
        a := Exit;
      }
    }
  }

  lemma SentinelArrived<R>(c: Job<R>, s: State<R>, w: nat)
    requires Inv(c, s) && s.pipe == [] && w < N(c) && s.bufs[w] == [] && s.workers[w].finished
    ensures CountSentinels(Proj(s.writer.received, w)) == 1
  {
    assert WorkerInv(c, s, w);
    var puts := Batches(w, c.payload[w][..s.workers[w].sent]);
    assert Proj(s.writer.received, w) == puts + [Sentinel(w)];
    CountNoSentinel(puts);
    CountSnoc(puts, Sentinel(w));
  }

  lemma EverythingTaken<R>(c: Job<R>, s: State<R>)
    requires Inv(c, s) && s.pipe == []
    requires forall w :: 0 <= w < N(c) ==> s.bufs[w] == [] && s.workers[w].finished
    ensures s.writer.sentinels == N(c)
  {
    forall w: nat | w < N(c) ensures SentinelCounts(s.writer.received)(w) == 1 { SentinelArrived(c, s, w); }
    FullSum(SentinelCounts(s.writer.received), N(c));
    SentinelsByProducer(s.writer.received, N(c));
  }

  // ---- always ends -----------------------------------------------------------------

  ghost function WorkerWork<R>(c: Job<R>, s: State<R>, w: nat): nat
    requires Inv(c, s) && w < N(c)
  {
    assert WorkerInv(c, s, w);
    (if s.workers[w].raised then 0 else 3 * (|c.payload[w]| - s.workers[w].sent))
    + (if s.workers[w].finished then 0 else 3)
    + 2 * |s.bufs[w]|
  }

  ghost function WorkBelow<R>(c: Job<R>, s: State<R>, n: nat): nat
    requires Inv(c, s) && n <= N(c)
  {
    if n == 0 then 0 else WorkBelow(c, s, n - 1) + WorkerWork(c, s, n - 1)
  }

  /** Work left in a state: three moves per item still to come, two per buffered item, one per piped one. */
  ghost function Measure<R>(c: Job<R>, s: State<R>): nat
    requires Inv(c, s)
  {
    WorkBelow(c, s, N(c)) + |s.pipe| + (if s.writer.exited then 0 else 1) + (N(c) + 1 - s.joined)
  }

  lemma {:induction false} WorkBelowChange<R>(c: Job<R>, s: State<R>, t: State<R>, w: nat, n: nat)
    requires Inv(c, s) && Inv(c, t) && n <= N(c) && w < N(c)
    requires forall v :: 0 <= v < N(c) && v != w ==> s.workers[v] == t.workers[v] && s.bufs[v] == t.bufs[v]
    ensures WorkBelow(c, t, n) - WorkBelow(c, s, n) == if w < n then WorkerWork(c, t, w) - WorkerWork(c, s, w) else 0
  {
    if n > 0 { WorkBelowChange(c, s, t, w, n - 1); }
  }

  lemma {:induction false} WorkBelowSame<R>(c: Job<R>, s: State<R>, t: State<R>, n: nat)
    requires Inv(c, s) && Inv(c, t) && n <= N(c) && s.workers == t.workers && s.bufs == t.bufs
    ensures WorkBelow(c, t, n) == WorkBelow(c, s, n)
  {
    if n > 0 { WorkBelowSame(c, s, t, n - 1); }
  }

  lemma StepDecreases<R>(c: Job<R>, s: State<R>, a: Step)
    requires Inv(c, s) && Enabled(c, s, a)
    ensures Inv(c, Apply(c, s, a)) && Measure(c, Apply(c, s, a)) < Measure(c, s)
  {
    StepInv(c, s, a);
    var t := Apply(c, s, a);
    if a.Get? || a.Exit? || a.Join? {
      WorkBelowSame(c, s, t, N(c));
    } else {
      WorkBelowChange(c, s, t, a.w, N(c));
      WorkerMoveShrinks(c, s, a);
    }
  }

  lemma WorkerMoveShrinks<R>(c: Job<R>, s: State<R>, a: Step)
    requires Inv(c, s) && Enabled(c, s, a) && (a.Put? || a.Raise? || a.PutSentinel? || a.Feed?)
    ensures Inv(c, Apply(c, s, a))
    ensures WorkerWork(c, Apply(c, s, a), a.w) + |Apply(c, s, a).pipe| < WorkerWork(c, s, a.w) + |s.pipe|
  {
    StepInv(c, s, a);
  }

  /** No run is longer than the work its first state holds. */
  lemma {:induction false} RunsAreBounded<R>(c: Job<R>, s: State<R>, steps: seq<Step>, t: State<R>)
    requires Inv(c, s) && Run(c, s, steps, t)
    ensures Inv(c, t) && |steps| + Measure(c, t) <= Measure(c, s)
    decreases steps
  {
    if steps != [] {
      StepDecreases(c, s, steps[0]);
      RunsAreBounded(c, Apply(c, s, steps[0]), steps[1..], t);
    }
  }

  // ---- nothing lost, nothing doubled ------------------------------------------------

  /** The rows of worker w's first k events. */
  ghost function Flatten<R>(payload: seq<seq<R>>): seq<R> {
    if payload == [] then [] else Flatten(payload[..|payload| - 1]) + payload[|payload| - 1]
  }

  ghost function Union<R>(f: nat -> multiset<R>, n: nat): multiset<R> {
    if n == 0 then multiset{} else Union(f, n - 1) + f(n - 1)
  }

  lemma {:induction false} UnionBump<R>(f: nat -> multiset<R>, g: nat -> multiset<R>, w: nat, extra: multiset<R>,
      n: nat)
    requires g(w) == f(w) + extra && forall v: nat :: v != w ==> g(v) == f(v)
    ensures Union(g, n) == Union(f, n) + (if w < n then extra else multiset{})
  {
    if n > 0 { UnionBump(f, g, w, extra, n - 1); }
  }

  lemma {:induction false} UnionSame<R>(f: nat -> multiset<R>, g: nat -> multiset<R>, n: nat)
    requires forall v: nat :: v < n ==> g(v) == f(v)
    ensures Union(g, n) == Union(f, n)
  {
    if n > 0 { UnionSame(f, g, n - 1); }
  }

  /** The rows of worker w's items in q, as a function of w. */
  ghost function RowsFrom<R>(q: seq<Item<R>>): nat -> multiset<R> {
    (w: nat) => multiset(Rows(Proj(q, w)))
  }

  lemma RowsProjSnoc<R>(q: seq<Item<R>>, x: Item<R>, w: nat)
    ensures multiset(Rows(Proj(q + [x], w)))
        == multiset(Rows(Proj(q, w))) + (if x.from == w then multiset(ItemRows(x)) else multiset{})
  {
    ProjSnoc(q, x, w);
    RowsSnoc(Proj(q, w), x);
    assert Proj(q, w) + [] == Proj(q, w);
  }

  lemma RowsFromSnoc<R>(q: seq<Item<R>>, x: Item<R>, n: nat)
    requires x.from < n
    ensures Union(RowsFrom(q + [x]), n) == Union(RowsFrom(q), n) + multiset(ItemRows(x))
  {
    var f, g := RowsFrom(q), RowsFrom(q + [x]);
    forall w: nat ensures g(w) == f(w) + (if x.from == w then multiset(ItemRows(x)) else multiset{}) {
      RowsProjSnoc(q, x, w);
    }
    UnionBump(f, g, x.from, multiset(ItemRows(x)), n);
  }

  lemma {:induction false} NoRows<R>(n: nat)
    ensures Union(RowsFrom<R>([]), n) == multiset{}
  {
    if n > 0 { NoRows<R>(n - 1); }
  }

  lemma {:induction false} RowsByProducer<R>(q: seq<Item<R>>, n: nat)
    requires forall i :: 0 <= i < |q| ==> q[i].from < n
    ensures multiset(Rows(q)) == Union(RowsFrom(q), n)
  {
    if q == [] {
      NoRows<R>(n);
    } else {
      var init, x := q[..|q| - 1], q[|q| - 1];
      assert q == init + [x];
      RowsByProducer(init, n);
      RowsFromSnoc(init, x, n);
      assert Rows(q) == Rows(init) + ItemRows(x);
    }
  }

  lemma {:induction false} RowsOfBatches<R>(w: nat, payload: seq<seq<R>>)
    ensures Rows(Batches(w, payload)) == Flatten(payload)
  {
    if payload != [] {
      var init := payload[..|payload| - 1];
      RowsOfBatches(w, init);
      assert Batches(w, payload)[..|payload| - 1] == Batches(w, init);
    }
  }

  /** The rows of the events each worker sent, as a function of the worker. */
  ghost function SentRows<R>(c: Job<R>, s: State<R>): nat -> multiset<R> {
    (w: nat) => if w < N(c) && w < |s.workers| && s.workers[w].sent <= |c.payload[w]|
         then multiset(Flatten(c.payload[w][..s.workers[w].sent])) else multiset{}
  }

  lemma RowsOfSent<R>(c: Job<R>, s: State<R>, w: nat)
    requires Inv(c, s) && w < N(c) && Drained(c, s, w)
    ensures RowsFrom(s.writer.received)(w) == SentRows(c, s)(w)
  {
    assert WorkerInv(c, s, w);
    var pre := c.payload[w][..s.workers[w].sent];
    RowsOfBatches(w, pre);
    RowsSnoc(Batches(w, pre), Sentinel(w));
  }

  /** Every row of every job, worker by worker. */
  ghost function AllRows<R>(payload: seq<seq<seq<R>>>): seq<R> {
    if payload == [] then [] else AllRows(payload[..|payload| - 1]) + Flatten(payload[|payload| - 1])
  }

  lemma {:induction false} UnionOfAll<R>(payload: seq<seq<seq<R>>>, f: nat -> multiset<R>)
    requires forall w: nat :: w < |payload| ==> f(w) == multiset(Flatten(payload[w]))
    ensures Union(f, |payload|) == multiset(AllRows(payload))
  {
    if payload != [] {
      UnionOfAll(payload[..|payload| - 1], f);
    }
  }

  /** Once the writer has exited, the committed rows are exactly those of the events each worker
      sent: a prefix of its partition if it raised, the whole partition if it did not. The queue is
      empty, every worker has finished, and the reported total is the number of rows. */
  lemma ExitDelivers<R>(c: Job<R>, steps: seq<Step>, s: State<R>)
    requires Run(c, Init(c), steps, s) && s.writer.exited
    ensures Inv(c, s) && Load(s) == 0
    ensures forall w :: 0 <= w < N(c) ==> s.workers[w].finished && s.workers[w].sent <= |c.payload[w]|
                                          && (!s.workers[w].raised ==> s.workers[w].sent == |c.payload[w]|)
    ensures multiset(s.writer.inserted) == Union(SentRows(c, s), N(c))
    ensures s.writer.totalInserted == |s.writer.inserted|
  {
    InitInv(c);
    RunInv(c, Init(c), steps, s);
    ExitMeansDrained(c, s);
    forall w: nat | w < N(c)
      ensures s.workers[w].finished && s.workers[w].sent <= |c.payload[w]|
              && (!s.workers[w].raised ==> s.workers[w].sent == |c.payload[w]|)
              && RowsFrom(s.writer.received)(w) == SentRows(c, s)(w)
    {
      assert Drained(c, s, w) && WorkerInv(c, s, w);
      RowsOfSent(c, s, w);
    }
    RowsByProducer(s.writer.received, N(c));
    UnionSame(RowsFrom(s.writer.received), SentRows(c, s), N(c));
    assert s.writer.inserted + [] == s.writer.inserted;
  }

  /** If no worker raised, every row of every worker is committed, once. */
  lemma ExitDeliversAll<R>(c: Job<R>, steps: seq<Step>, s: State<R>)
    requires Run(c, Init(c), steps, s) && s.writer.exited
    requires Shape(c, s) && forall w :: 0 <= w < N(c) ==> !s.workers[w].raised
    ensures multiset(s.writer.inserted) == multiset(AllRows(c.payload))
    ensures s.writer.totalInserted == |s.writer.inserted|
  {
    ExitDelivers(c, steps, s);
    forall w: nat | w < |c.payload| ensures SentRows(c, s)(w) == multiset(Flatten(c.payload[w])) {
      assert c.payload[w][..s.workers[w].sent] == c.payload[w];
    }
    UnionOfAll(c.payload, SentRows(c, s));
  }

  lemma SplitPrefix<T>(a: seq<T>, b: seq<T>, c: seq<T>, all: seq<T>)
    requires a + b + c == all
    ensures a <= all
  {
  }

  /** A worker's rows arrive in partition order, whatever the interleaving. */
  lemma ArrivalKeepsPartitionOrder<R>(c: Job<R>, steps: seq<Step>, s: State<R>, w: nat)
    requires Run(c, Init(c), steps, s) && w < N(c)
    ensures Inv(c, s) && s.workers[w].sent <= |c.payload[w]| && Proj(s.writer.received, w) <= Sent(c, s, w)
  {
    InitInv(c);
    RunInv(c, Init(c), steps, s);
    assert WorkerInv(c, s, w);
    SplitPrefix(Proj(s.writer.received, w), Proj(s.pipe, w), s.bufs[w], Sent(c, s, w));
  }

  /** Total correctness: a run that cannot be continued has joined every process, and its length is bounded. */
  lemma MaximalRunsComplete<R>(c: Job<R>, steps: seq<Step>, s: State<R>)
    requires c.capacity >= 1 && Run(c, Init(c), steps, s)
    requires Shape(c, s) && forall a :: !Enabled(c, s, a)
    ensures Done(c, s) && s.writer.exited
    ensures Inv(c, Init(c)) && |steps| <= Measure(c, Init(c))
  {
    InitInv(c);
    RunInv(c, Init(c), steps, s);
    RunsAreBounded(c, Init(c), steps, s);
    if !Done(c, s) {
      var a := NeverStuck(c, s);
    }
  }

  // ---- commits, failures, and how full the queue gets --------------------------------------------------

  /** The table grows only by commits of at least 500 rows, or by the last flush; fewer than 500 rows wait. */
  lemma CommitsInBatches<R>(c: Job<R>, s: State<R>, a: Step)
    requires Inv(c, s) && Enabled(c, s, a)
    ensures |s.writer.batch| < 500
    ensures var before, after := s.writer.inserted, Apply(c, s, a).writer.inserted;
            before <= after && (after == before || |after| >= |before| + 500 || a.Exit?)
  {
  }

  /** A worker may fail before any of its events; it then puts no further batch, whatever follows. */
  lemma WorkerMayRaise<R>(c: Job<R>, s: State<R>, w: nat, steps: seq<Step>, t: State<R>)
    requires Inv(c, s) && w < N(c) && s.workers[w].sent < |c.payload[w]|
    requires !s.workers[w].raised && !s.workers[w].finished
    ensures Enabled(c, s, Raise(w))
    ensures Run(c, Apply(c, s, Raise(w)), steps, t) && Shape(c, t) ==>
        t.workers[w].raised && t.workers[w].sent == s.workers[w].sent
  {
    if Run(c, Apply(c, s, Raise(w)), steps, t) && Shape(c, t) { RaisedStays(c, Apply(c, s, Raise(w)), w, steps, t); }
  }

  lemma {:induction false} RaisedStays<R>(c: Job<R>, s: State<R>, w: nat, steps: seq<Step>, t: State<R>)
    requires Shape(c, s) && w < N(c) && s.workers[w].raised && Run(c, s, steps, t) && Shape(c, t)
    ensures t.workers[w].raised && t.workers[w].sent == s.workers[w].sent
    decreases steps
  {
    if steps != [] { RaisedStays(c, Apply(c, s, steps[0]), w, steps[1..], t); }
  }

  ghost function PutsOf(k: Worker): nat { k.sent + (if k.finished then 1 else 0) }

  /** Items put so far. */
  ghost function Puts(workers: seq<Worker>): nat {
    if workers == [] then 0 else Puts(workers[..|workers| - 1]) + PutsOf(workers[|workers| - 1])
  }

  lemma {:induction false} PutsUpdate(workers: seq<Worker>, w: nat, k: Worker)
    requires w < |workers|
    ensures Puts(workers[w := k]) == Puts(workers) - PutsOf(workers[w]) + PutsOf(k)
  {
    var init := workers[..|workers| - 1];
    if w == |workers| - 1 {
      assert workers[w := k][..|workers| - 1] == init;
    } else {
      PutsUpdate(init, w, k);
      assert workers[w := k][..|workers| - 1] == init[w := k];
    }
  }

  lemma {:induction false} NothingPut(workers: seq<Worker>)
    requires forall w :: 0 <= w < |workers| ==> workers[w] == Worker(0, false, false)
    ensures Puts(workers) == 0
  {
    if workers != [] { NothingPut(workers[..|workers| - 1]); }
  }

  /** Items are conserved: what was put is on the queue or with the writer. */
  lemma StepConserves<R>(c: Job<R>, s: State<R>, a: Step)
    requires Inv(c, s) && Enabled(c, s, a) && Load(s) + |s.writer.received| == Puts(s.workers)
    ensures Load(Apply(c, s, a)) + |Apply(c, s, a).writer.received| == Puts(Apply(c, s, a).workers)
  {
    var t := Apply(c, s, a);
    match a
    case Put(w) => BufLoadUpdate(s.bufs, w, t.bufs[w]); PutsUpdate(s.workers, w, t.workers[w]);
    case Raise(w) => PutsUpdate(s.workers, w, t.workers[w]);
    case PutSentinel(w) => BufLoadUpdate(s.bufs, w, t.bufs[w]); PutsUpdate(s.workers, w, t.workers[w]);
    case Feed(w) => BufLoadUpdate(s.bufs, w, t.bufs[w]);
    case _ =>
  }

  lemma {:induction false} RunConserves<R>(c: Job<R>, s: State<R>, steps: seq<Step>, t: State<R>)
    requires Inv(c, s) && Run(c, s, steps, t) && Load(s) + |s.writer.received| == Puts(s.workers)
    ensures Load(t) + |t.writer.received| == Puts(t.workers)
    decreases steps
  {
    if steps != [] {
      StepInv(c, s, steps[0]);
      StepConserves(c, s, steps[0]);
      RunConserves(c, Apply(c, s, steps[0]), steps[1..], t);
    }
  }

  /** Events of all workers. */
  ghost function Events<R>(payload: seq<seq<seq<R>>>): nat {
    if payload == [] then 0 else Events(payload[..|payload| - 1]) + |payload[|payload| - 1]|
  }

  lemma {:induction false} PutsBounded<R>(workers: seq<Worker>, payload: seq<seq<seq<R>>>)
    requires |workers| == |payload| && forall w :: 0 <= w < |workers| ==> workers[w].sent <= |payload[w]|
    ensures Puts(workers) <= Events(payload) + |payload|
  {
    if workers != [] { PutsBounded(workers[..|workers| - 1], payload[..|payload| - 1]); }
  }

  /** In every reachable state the queue holds at most one item per event and one per worker. */
  lemma QueueHolds<R>(c: Job<R>, steps: seq<Step>, s: State<R>)
    requires Run(c, Init(c), steps, s)
    ensures Load(s) <= Events(c.payload) + N(c)
  {
    InitInv(c);
    BufLoadEmpty(Init(c).bufs);
    NothingPut(Init(c).workers);
    RunInv(c, Init(c), steps, s);
    RunConserves(c, Init(c), steps, s);
    forall w | 0 <= w < N(c) ensures s.workers[w].sent <= |c.payload[w]| { assert WorkerInv(c, s, w); }
    PutsBounded(s.workers, c.payload);
  }
}
