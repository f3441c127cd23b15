/** Choosing the k nearest nodes and weighting them (scripts/cieu_to_brain_batch.py). */
module NearestNodes {

  datatype Scored = Scored(nodeId: string, dist: real)

  // ---- the library sort, by its specification -------------------------------

  ghost predicate SortedByDist(s: seq<Scored>) {
    forall i, j :: 0 <= i < j < |s| ==> s[i].dist <= s[j].dist
  }

  /** The elements at one distance, in their order of appearance. */
  function AtDist(s: seq<Scored>, d: real): seq<Scored> {
    if s == [] then []
    else (if s[0].dist == d then [s[0]] else []) + AtDist(s[1..], d)
  }

  /** What `list.sort(key=dist)` promises: ascending, and equal keys keep their order. */
  ghost predicate IsStableSortOf(t: seq<Scored>, s: seq<Scored>) {
    SortedByDist(t) && forall d: real :: AtDist(t, d) == AtDist(s, d)
  }

  function Insert(x: Scored, s: seq<Scored>): (r: seq<Scored>)
    ensures |r| == |s| + 1
  {
    if s == [] || x.dist <= s[0].dist then [x] + s else [s[0]] + Insert(x, s[1..])
  }

  function StableSort(s: seq<Scored>): (r: seq<Scored>)
    ensures |r| == |s|
  {
    if s == [] then [] else Insert(s[0], StableSort(s[1..]))
  }

  lemma {:induction false} InsertElements(x: Scored, s: seq<Scored>)
    ensures multiset(Insert(x, s)) == multiset{x} + multiset(s)
  {
    if s == [] || x.dist <= s[0].dist {
      assert Insert(x, s) == [x] + s;
    } else {
      InsertElements(x, s[1..]);
      assert s == [s[0]] + s[1..];
    }
  }

  lemma {:induction false} InsertSorted(x: Scored, s: seq<Scored>)
    requires SortedByDist(s)
    ensures SortedByDist(Insert(x, s))
  {
    if s != [] && x.dist > s[0].dist {
      InsertSorted(x, s[1..]);
      InsertElements(x, s[1..]);
      var t := Insert(x, s[1..]);
      forall j | 0 <= j < |t| ensures s[0].dist <= t[j].dist {
        assert t[j] in multiset(t);
        assert t[j] == x || t[j] in s[1..];
      }
    }
  }

  lemma AtDistCons(x: Scored, s: seq<Scored>, d: real)
    ensures AtDist([x] + s, d) == (if x.dist == d then [x] else []) + AtDist(s, d)
  {
    assert ([x] + s)[1..] == s;
  }

  lemma {:induction false} InsertStable(x: Scored, s: seq<Scored>, d: real)
    requires SortedByDist(s)
    ensures AtDist(Insert(x, s), d) == (if x.dist == d then [x] else []) + AtDist(s, d)
  {
    if s == [] || x.dist <= s[0].dist {
      AtDistCons(x, s, d);
    } else {
      InsertStable(x, s[1..], d);
      AtDistCons(s[0], Insert(x, s[1..]), d);
      AtDistCons(s[0], s[1..], d);
      assert s == [s[0]] + s[1..];
    }
  }

  /** The sort meets its specification and keeps every element. */
  lemma {:induction false} StableSortSorts(s: seq<Scored>)
    ensures IsStableSortOf(StableSort(s), s)
    ensures multiset(StableSort(s)) == multiset(s)
  {
    if s != [] {
      StableSortSorts(s[1..]);
      InsertSorted(s[0], StableSort(s[1..]));
      InsertElements(s[0], StableSort(s[1..]));
      assert s == [s[0]] + s[1..];
      forall d: real ensures AtDist(StableSort(s), d) == AtDist(s, d) {
        InsertStable(s[0], StableSort(s[1..]), d);
      }
    }
  }

  lemma {:induction false} AtDistHead(t: seq<Scored>, x: Scored)
    requires SortedByDist(t) && x in t
    ensures AtDist(t, x.dist) != [] && x in AtDist(t, x.dist)
  {
    if x != t[0] {
      AtDistHead(t[1..], x);
    }
  }

  lemma {:induction false} AtDistMember(t: seq<Scored>, d: real)
    ensures forall x :: x in AtDist(t, d) ==> x in t && x.dist == d
  {
    if t != [] { AtDistMember(t[1..], d); }
  }

  lemma SameDistSameMembers(t: seq<Scored>, u: seq<Scored>)
    requires SortedByDist(t)
    requires forall d: real :: AtDist(t, d) == AtDist(u, d)
    ensures forall x :: x in t ==> x in u
  {
    forall x | x in t ensures x in u {
      AtDistHead(t, x);
      AtDistMember(u, x.dist);
      assert x in AtDist(u, x.dist);
    }
  }

  /** The specification leaves no freedom: any stable sort yields the very same list. */
  lemma {:induction false} StableSortUnique(t: seq<Scored>, u: seq<Scored>)
    requires SortedByDist(t) && SortedByDist(u)
    requires forall d: real :: AtDist(t, d) == AtDist(u, d)
    ensures t == u
  {
    SameDistSameMembers(t, u);
    SameDistSameMembers(u, t);
    if t == [] || u == [] {
      assert forall x :: x in t <==> x in u;
    } else {
      assert t[0] in u && u[0] in t;
      assert t[0].dist == u[0].dist;
      assert AtDist(t, t[0].dist)[0] == t[0] && AtDist(u, u[0].dist)[0] == u[0];
      forall d: real ensures AtDist(t[1..], d) == AtDist(u[1..], d) {
        assert AtDist(t, d) == AtDist(u, d);
        if d == t[0].dist {
          assert AtDist(t[1..], d) == AtDist(t, d)[1..];
          assert AtDist(u[1..], d) == AtDist(u, d)[1..];
        } else {
          assert AtDist(t, d) == AtDist(t[1..], d);
          assert AtDist(u, d) == AtDist(u[1..], d);
        }
      }
      StableSortUnique(t[1..], u[1..]);
      assert t == [t[0]] + t[1..] && u == [u[0]] + u[1..];
    }
  }

  // ---- top k -----------------------------------------------------------------

  /** How many items Python's `s[:k]` keeps; a negative k counts from the end. */
  function TakeCount(n: nat, k: int): (m: nat)
    ensures m <= n
  {
    if k >= 0 then (if k < n then k else n) else if n + k > 0 then n + k else 0
  }

  function TopK(scored: seq<Scored>, k: int): seq<Scored> {
    StableSort(scored)[..TakeCount(|scored|, k)]
  }

  /** For k from zero up the k nearest nodes are kept, or all when there are fewer; a negative k drops its
      number of nodes from the far end, and all when there are no more. */
  lemma KeptCount(nodes: seq<string>, distTo: string -> real, k: int)
    ensures 0 <= k <= |nodes| ==> |TopK(ScoreAll(nodes, distTo), k)| == k
    ensures k >= |nodes| ==> |TopK(ScoreAll(nodes, distTo), k)| == |nodes|
    ensures -|nodes| <= k < 0 ==> |TopK(ScoreAll(nodes, distTo), k)| == |nodes| + k
    ensures k < -|nodes| ==> TopK(ScoreAll(nodes, distTo), k) == []
  {
  }

  /** In a sorted list everything behind a cut is at least as far as everything before it. */
  lemma CutSorted(s: seq<Scored>, m: nat)
    requires SortedByDist(s) && m <= |s|
    ensures multiset(s) == multiset(s[..m]) + multiset(s[m..])
    ensures forall kept, out :: kept in s[..m] && out in s[m..] ==> kept.dist <= out.dist
  {
    assert s == s[..m] + s[m..];
  }

  /** The k selected nodes come nearest first, and no node left out is nearer than one kept. */
  lemma TopKNearest(scored: seq<Scored>, k: int)
    ensures |TopK(scored, k)| == TakeCount(|scored|, k)
    ensures SortedByDist(TopK(scored, k))
    ensures multiset(TopK(scored, k)) <= multiset(scored)
    ensures forall out, kept :: out in multiset(scored) - multiset(TopK(scored, k)) && kept in TopK(scored, k)
              ==> kept.dist <= out.dist
  {
    StableSortSorts(scored);
    var s, m := StableSort(scored), TakeCount(|scored|, k);
    CutSorted(s, m);
    assert multiset(scored) - multiset(s[..m]) == multiset(s[m..]);
    forall out, kept | out in multiset(scored) - multiset(s[..m]) && kept in s[..m] ensures kept.dist <= out.dist {
      assert out in multiset(s[m..]);
    }
  }

  /** The method of the workers: score every cached node, sort, cut. */
  method TopKFromCachedNodes(nodes: seq<string>, distTo: string -> real, k: int) returns (nearest: seq<Scored>)
    ensures nearest == TopK(ScoreAll(nodes, distTo), k)
    ensures k >= 0 ==> |nearest| == if k <= |nodes| then k else |nodes|
    ensures k < 0 ==> |nearest| == if |nodes| + k >= 0 then |nodes| + k else 0
  {
    var scored := [];
    for i := 0 to |nodes|
      invariant scored == ScoreAll(nodes[..i], distTo)
    {
      assert nodes[..i + 1][..i] == nodes[..i];
      scored := scored + [Scored(nodes[i], distTo(nodes[i]))];
    }
    assert nodes[..|nodes|] == nodes;
    nearest := StableSort(scored)[..TakeCount(|scored|, k)];
  }

  function ScoreAll(nodes: seq<string>, distTo: string -> real): (r: seq<Scored>)
    ensures |r| == |nodes|
    ensures forall i :: 0 <= i < |nodes| ==> r[i] == Scored(nodes[i], distTo(nodes[i]))
  {
    if nodes == [] then []
    else
      var last := |nodes| - 1;
      ScoreAll(nodes[..last], distTo) + [Scored(nodes[last], distTo(nodes[last]))]
  }

  // ---- weights ----------------------------------------------------------------

  function Weight(dist: real): real {
    var raw := if dist > 0.0 then 1.0 / (1.0 + dist) else 1.0;
    var capped := if raw < 1.0 then raw else 1.0;
    if capped > 0.01 then capped else 0.01
  }

  /** Weights lie in [0.01, 1] and never grow with distance; between distance 0 and 99 the weight is
      the reciprocal of one plus the distance, and it is level on either side. */
  lemma WeightFalls(d1: real, d2: real)
    requires d1 <= d2
    ensures 0.01 <= Weight(d2) <= Weight(d1) <= 1.0
    ensures d1 <= 0.0 ==> Weight(d1) == 1.0
    ensures 0.0 < d1 <= 99.0 ==> Weight(d1) * (1.0 + d1) == 1.0
    ensures d1 >= 99.0 ==> Weight(d1) == 0.01
  {
  }
}
