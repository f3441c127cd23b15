/** Contracts, what they permit, and their strictest-of-both merge (ystar/adapters/hook.py). */
module Contracts {
  import opened Common

  datatype Bounds = Bounds(min: Option<real>, max: Option<real>)

  /** The six dimensions a merge carries over, and the rules of the other dimensions. */
  datatype Contract = Contract(deny: set<string>, onlyPaths: set<string>, denyCommands: set<string>,
                               onlyDomains: set<string>, invariants: set<string>,
                               valueRange: map<string, Bounds>, others: set<string>)

  /** One call, as far as the checks look at it. */
  datatype Action = Action(paths: set<string>, domains: set<string>, numbers: map<string, real>, params: string)

  datatype Rule = Deny(s: string) | DenyCommand(s: string) | Invariant(s: string) | OtherRule(s: string)

  /** How a reader of contracts matches: whether a rule is broken, whether a path or a domain
      falls under a list entry. */
  datatype Reading = Reading(breaks: (Rule, Action) -> bool,
                             inPath: (string, string) -> bool,
                             inDomain: (string, string) -> bool)

  // ---- permission ---------------------------------------------------------------

  ghost predicate Covered(isIn: (string, string) -> bool, list: set<string>, x: string) {
    exists e :: e in list && isIn(x, e)
  }

  /** An empty list restricts nothing. */
  ghost predicate ListAllows(isIn: (string, string) -> bool, list: set<string>, x: string) {
    list == {} || Covered(isIn, list, x)
  }

  predicate InBounds(b: Bounds, v: real) {
    (b.min.Some? ==> b.min.value <= v) && (b.max.Some? ==> v <= b.max.value)
  }

  ghost predicate RangesAllow(vr: map<string, Bounds>, numbers: map<string, real>) {
    forall k :: k in vr && k in numbers ==> InBounds(vr[k], numbers[k])
  }

  ghost predicate Permits(r: Reading, c: Contract, a: Action) {
    && (forall s :: s in c.deny ==> !r.breaks(Deny(s), a))
    && (forall s :: s in c.denyCommands ==> !r.breaks(DenyCommand(s), a))
    && (forall s :: s in c.invariants ==> !r.breaks(Invariant(s), a))
    && (forall s :: s in c.others ==> !r.breaks(OtherRule(s), a))
    && (forall p :: p in a.paths ==> ListAllows(r.inPath, c.onlyPaths, p))
    && (forall d :: d in a.domains ==> ListAllows(r.inDomain, c.onlyDomains, d))
    && RangesAllow(c.valueRange, a.numbers)
  }

  // ---- the merge -------------------------------------------------------------------

  function IntersectPrefixes(a: set<string>, b: set<string>): set<string> {
    (set p1, p2 | p1 in a && p2 in b && StartsWith(p1, p2) :: p1)
    + (set p1, p2 | p1 in a && p2 in b && StartsWith(p2, p1) :: p2)
  }

  function CommonEntries(a: set<string>, b: set<string>): set<string> {
    a * b
  }

  /** Meet two restrictions, unless one of them is no restriction at all. */
  function MergeLists(meet: (set<string>, set<string>) -> set<string>, a: set<string>, b: set<string>): set<string> {
    if a != {} && b != {} then meet(a, b) else if a != {} then a else b
  }

  function Higher(x: Option<real>, y: Option<real>): Option<real> {
    if x.None? then y else if y.None? then x else Some(if x.value >= y.value then x.value else y.value)
  }

  function Lower(x: Option<real>, y: Option<real>): Option<real> {
    if x.None? then y else if y.None? then x else Some(if x.value <= y.value then x.value else y.value)
  }

  function RangeOf(vr: map<string, Bounds>, key: string): Bounds {
    if key in vr then vr[key] else Bounds(None, None)
  }

  function MergeBounds(b1: Bounds, b2: Bounds): Bounds {
    Bounds(Higher(b1.min, b2.min), Lower(b1.max, b2.max))
  }

  function MergeRanges(vr1: map<string, Bounds>, vr2: map<string, Bounds>): map<string, Bounds> {
    map key | key in vr1.Keys + vr2.Keys && MergeBounds(RangeOf(vr1, key), RangeOf(vr2, key)) != Bounds(None, None)
      :: MergeBounds(RangeOf(vr1, key), RangeOf(vr2, key))
  }

  function Merge(c1: Contract, c2: Contract): Contract {
    Contract(c1.deny + c2.deny,
             MergeLists(IntersectPrefixes, c1.onlyPaths, c2.onlyPaths),
             c1.denyCommands + c2.denyCommands,
             MergeLists(CommonEntries, c1.onlyDomains, c2.onlyDomains),
             c1.invariants + c2.invariants,
             MergeRanges(c1.valueRange, c2.valueRange),
             {})
  }

  /** Fold along the delegation path, root first; no contract at all when the agent is not found. */
  function Effective(path: seq<Contract>): Option<Contract> {
    if path == [] then None
    else
      var last := path[|path| - 1];
      match Effective(path[..|path| - 1])
      case None => Some(last)
      case Some(c) => Some(Merge(c, last))
  }

  /** A contract without the dimensions a merge drops. */
  function Six(c: Contract): Contract {
    c.(others := {})
  }

  // ---- the two readings ---------------------------------------------------------------

  /** The reading the merge is written for: raw prefixes and equal domains. */
  predicate HasPrefix(p: string, e: string) { StartsWith(p, e) }

  predicate SameDomain(d: string, e: string) { d == e }

  /** The enforcing kernel's reading of (normalised) paths: the entry itself or something below it. */
  predicate Within(p: string, e: string) {
    p == e || StartsWith(p, e + "/")
  }

  /** The kernel's reading of (lower-case) domains: the entry or one dot-free label in front of it. */
  predicate UnderDomain(d: string, e: string) {
    d == e || (|d| > |e| && d[|d| - |e|..] == e && d[|d| - |e| - 1] == '.' && '.' !in d[..|d| - |e| - 1])
  }

  ghost predicate IsKernel(r: Reading) {
    && (forall p, e :: r.inPath(p, e) == Within(p, e))
    && (forall d, e :: r.inDomain(d, e) == UnderDomain(d, e))
  }

  /** The kernel's reading or the merge's own, with any matcher of rules. */
  function ReadAs(kernel: bool, breaks: (Rule, Action) -> bool): Reading {
    if kernel then Reading(breaks, Within, UnderDomain) else Reading(breaks, HasPrefix, SameDomain)
  }

  // ---- the loops of the source -----------------------------------------------------------

  function Elements(s: seq<string>): set<string> { set x | x in s }

  method IntersectPathPrefixes(paths1: seq<string>, paths2: seq<string>) returns (kept: set<string>)
    ensures kept == IntersectPrefixes(Elements(paths1), Elements(paths2))
  {
    var result := [];
    for i := 0 to |paths1|
      invariant Elements(result) == IntersectPrefixes(Elements(paths1[..i]), Elements(paths2))
    {
      var p1 := paths1[i];
      for j := 0 to |paths2|
        invariant Elements(result) == IntersectPrefixes(Elements(paths1[..i]), Elements(paths2))
                                    + IntersectPrefixes({p1}, Elements(paths2[..j]))
      {
        var p2 := paths2[j];
        ghost var before := result;
        if StartsWith(p1, p2) {
          result := result + [p1];
        } else if StartsWith(p2, p1) {
          result := result + [p2];
        }
        assert Elements(paths2[..j + 1]) == Elements(paths2[..j]) + {p2};
        IntersectPair(p1, p2);
        assert Elements(result) == Elements(before) + IntersectPrefixes({p1}, {p2});
        IntersectRight({p1}, Elements(paths2[..j]), {p2});
      }
      assert paths2[..|paths2|] == paths2;
      assert Elements(paths1[..i + 1]) == Elements(paths1[..i]) + {p1};
      IntersectLeft(Elements(paths1[..i]), {p1}, Elements(paths2));
    }
    assert paths1[..|paths1|] == paths1;
    kept := set x | x in result;
  }

  lemma IntersectPair(p1: string, p2: string)
    ensures IntersectPrefixes({p1}, {p2}) == if StartsWith(p1, p2) then {p1} else if StartsWith(p2, p1) then {p2}
        else {}
  {
    if StartsWith(p1, p2) && StartsWith(p2, p1) { assert p1 == p2; }
  }

  lemma IntersectRight(a: set<string>, b: set<string>, b': set<string>)
    ensures IntersectPrefixes(a, b + b') == IntersectPrefixes(a, b) + IntersectPrefixes(a, b')
  {
  }

  lemma IntersectLeft(a: set<string>, a': set<string>, b: set<string>)
    ensures IntersectPrefixes(a + a', b) == IntersectPrefixes(a, b) + IntersectPrefixes(a', b)
  {
  }

  method MergeValueRanges(vr1: map<string, Bounds>, vr2: map<string, Bounds>) returns (merged: map<string, Bounds>)
    ensures merged == MergeRanges(vr1, vr2)
  {
    merged := map[];
    var todo := vr1.Keys + vr2.Keys;
    while todo != {}
      invariant todo <= vr1.Keys + vr2.Keys
      invariant merged == map key | key in MergeRanges(vr1, vr2) && key !in todo :: MergeRanges(vr1, vr2)[key]
    {
      var key :| key in todo;
      var range1, range2 := RangeOf(vr1, key), RangeOf(vr2, key);
      var lo := range1.min;
      if lo.None? || (range2.min.Some? && range2.min.value > lo.value) { lo := range2.min; }
      var hi := range1.max;
      if hi.None? || (range2.max.Some? && range2.max.value < hi.value) { hi := range2.max; }
      if lo.Some? || hi.Some? {
        merged := merged[key := Bounds(lo, hi)];
      }
      todo := todo - {key};
    }
  }

  method ComputeEffectiveContract(path: seq<Contract>) returns (effective: Option<Contract>)
    ensures effective == Effective(path)
  {
    effective := None;
    for i := 0 to |path|
      invariant effective == Effective(path[..i])
    {
      assert path[..i + 1][..i] == path[..i];
      effective := match effective
        case None => Some(path[i])
        case Some(c) => Some(Merge(c, path[i]));
    }
    assert path[..|path|] == path;
  }
}
