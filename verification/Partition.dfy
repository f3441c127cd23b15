/** Splitting an event range among workers (scripts/cieu_to_brain_batch.py). */
module Partition {

  datatype Part = Part(offset: nat, count: nat)

  ghost predicate Fits(parts: seq<Part>, total: nat) {
    forall i :: 0 <= i < |parts| ==> parts[i].offset + parts[i].count <= total
  }

  /** The parts tile [0, total): each starts where the previous one ends. */
  ghost predicate Tiles(parts: seq<Part>, total: nat): (tiles: bool)
    ensures tiles ==> Fits(parts, total)
  {
    if parts == [] then total == 0
    else
      var last := parts[|parts| - 1];
      last.offset + last.count == total && Tiles(parts[..|parts| - 1], last.offset)
  }

  /** No part is empty, sizes never increase, and no two differ by more than one. */
  ghost predicate Balanced(parts: seq<Part>) {
    && (forall i :: 0 <= i < |parts| ==> parts[i].count >= 1)
    && (forall i, j :: 0 <= i < j < |parts| ==> parts[j].count <= parts[i].count <= parts[j].count + 1)
  }

  /** Worker i's share when every worker gets `base` items and the first `rest` workers one more. */
  function Share(i: nat, base: nat, rest: nat): nat {
    base + (if i < rest then 1 else 0)
  }

  ghost function Start(i: nat, base: nat, rest: nat): nat {
    if i == 0 then 0 else Start(i - 1, base, rest) + Share(i - 1, base, rest)
  }

  lemma {:induction false} StartClosed(i: nat, base: nat, rest: nat)
    ensures Start(i, base, rest) == i * base + (if i < rest then i else rest)
  {
    if i > 0 {
      StartClosed(i - 1, base, rest);
      assert i * base == (i - 1) * base + base;
    }
  }

  lemma ShareFacts(total: nat, n: nat)
    requires n >= 1
    ensures Start(n, total / n, total % n) == total
    ensures total / n == 0 <==> total < n
    ensures total < n ==> total % n == total
  {
    StartClosed(n, total / n, total % n);
    assert total == n * (total / n) + total % n;
  }

  lemma TilesSnoc(parts: seq<Part>, offset: nat, size: nat)
    requires Tiles(parts, offset)
    ensures Tiles(parts + [Part(offset, size)], offset + size)
  {
  }

  lemma SharesBalance(parts: seq<Part>, base: nat, rest: nat)
    requires forall j :: 0 <= j < |parts| ==> parts[j].count == Share(j, base, rest)
    requires base >= 1 || |parts| <= rest
    ensures Balanced(parts)
  {
  }

  method PartitionRange(total: nat, numWorkers: nat) returns (parts: seq<Part>)
    requires numWorkers >= 1
    ensures Tiles(parts, total)
    ensures Balanced(parts)
    ensures |parts| == if total < numWorkers then total else numWorkers
  {
    ShareFacts(total, numWorkers);
    var baseSize := total / numWorkers;
    var remainder := total % numWorkers;
    parts := [];
    var offset := 0;
    for i := 0 to numWorkers
      invariant offset == Start(i, baseSize, remainder)
      invariant Tiles(parts, offset)
      invariant |parts| == if baseSize >= 1 || i < remainder then i else remainder
      invariant forall j :: 0 <= j < |parts| ==> parts[j].count == Share(j, baseSize, remainder)
    {
      var size := Share(i, baseSize, remainder);
      if size > 0 {
        TilesSnoc(parts, offset, size);
        parts := parts + [Part(offset, size)];
      }
      offset := offset + size;
    }
    SharesBalance(parts, baseSize, remainder);
  }

  /** Every index of the range lies in exactly one part: no gaps and no overlaps. */
  lemma {:induction false} TilesOnce(parts: seq<Part>, total: nat, x: nat) returns (i: nat)
    requires Tiles(parts, total) && x < total
    ensures i < |parts| && parts[i].offset <= x < parts[i].offset + parts[i].count
    ensures forall j :: 0 <= j < |parts| && parts[j].offset <= x < parts[j].offset + parts[j].count ==> j == i
  {
    var last := parts[|parts| - 1];
    var init := parts[..|parts| - 1];
    if x >= last.offset {
      i := |parts| - 1;
      forall j | 0 <= j < |parts| - 1 ensures parts[j].offset + parts[j].count <= x {
        assert init[j] == parts[j];
      }
    } else {
      i := TilesOnce(init, last.offset, x);
      assert init[i] == parts[i];
      forall j | 0 <= j < |parts| && parts[j].offset <= x < parts[j].offset + parts[j].count ensures j == i {
        assert j < |parts| - 1;
        assert init[j] == parts[j];
      }
    }
  }
}
