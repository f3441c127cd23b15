/** The effective contract is the intersection of the contracts on the path, and never looser than any
    of them: exactly when, under the merge's own reading and under the kernel's (ystar/adapters/hook.py). */
module ContractTheorems {
  import opened Common
  import opened Contracts
  import opened RestrictionLists

  // ---- whole contracts -------------------------------------------------------------------------

  ghost function PathLists(path: seq<Contract>): (r: seq<set<string>>)
    ensures |r| == |path| && forall i :: 0 <= i < |r| ==> r[i] == path[i].onlyPaths
  {
    seq(|path|, i requires 0 <= i < |path| => path[i].onlyPaths)
  }

  ghost function DomainLists(path: seq<Contract>): (r: seq<set<string>>)
    ensures |r| == |path| && forall i :: 0 <= i < |r| ==> r[i] == path[i].onlyDomains
  {
    seq(|path|, i requires 0 <= i < |path| => path[i].onlyDomains)
  }

  /** The effective contract's lists are the folds the theorem above is about. */
  lemma {:induction false} EffectiveLists(path: seq<Contract>)
    requires path != []
    ensures Effective(path).Some?
    ensures Effective(path).value.onlyPaths == FoldLists(IntersectPrefixes, PathLists(path))
    ensures Effective(path).value.onlyDomains == FoldLists(CommonEntries, DomainLists(path))
  {
    if |path| >= 2 {
      EffectiveLists(path[..|path| - 1]);
      assert PathLists(path)[..|path| - 1] == PathLists(path[..|path| - 1]);
      assert DomainLists(path)[..|path| - 1] == DomainLists(path[..|path| - 1]);
    } else {
      assert Effective(path[..0]) == None;
    }
  }

  lemma RangesMeet(vr1: map<string, Bounds>, vr2: map<string, Bounds>, numbers: map<string, real>)
    ensures RangesAllow(MergeRanges(vr1, vr2), numbers) <==> RangesAllow(vr1, numbers) && RangesAllow(vr2, numbers)
  {
  }

  /** The merge of two contracts loses nothing in its two list dimensions under reading r. */
  ghost predicate StepExact(r: Reading, c1: Contract, c2: Contract) {
    && (forall p :: ListAllows(r.inPath, MergeLists(IntersectPrefixes, c1.onlyPaths, c2.onlyPaths), p)
                <==> ListAllows(r.inPath, c1.onlyPaths, p) && ListAllows(r.inPath, c2.onlyPaths, p))
    && (forall d :: ListAllows(r.inDomain, MergeLists(CommonEntries, c1.onlyDomains, c2.onlyDomains), d)
                <==> ListAllows(r.inDomain, c1.onlyDomains, d) && ListAllows(r.inDomain, c2.onlyDomains, d))
  }

  /** One finite check of a merge step, reading by reading. */
  ghost predicate PrefixStepOk(c1: Contract, c2: Contract) {
    !Clash(IntersectPrefixes, c1.onlyPaths, c2.onlyPaths) && !Clash(CommonEntries, c1.onlyDomains, c2.onlyDomains)
  }

  ghost predicate KernelStepOk(c1: Contract, c2: Contract) {
    && PrefixStepOk(c1, c2)
    && (c1.onlyPaths != {} && c2.onlyPaths != {} ==> OnBoundaries(c1.onlyPaths, c2.onlyPaths))
    && (c1.onlyDomains != {} && c2.onlyDomains != {} ==> SubdomainsKept(c1.onlyDomains, c2.onlyDomains))
  }

  ghost predicate IsPrefixReading(r: Reading) {
    && (forall p, e :: r.inPath(p, e) == HasPrefix(p, e))
    && (forall d, e :: r.inDomain(d, e) == SameDomain(d, e))
  }

  lemma CoveredSame(f: (string, string) -> bool, g: (string, string) -> bool, list: set<string>, x: string)
    requires forall y, e :: f(y, e) == g(y, e)
    ensures Covered(f, list, x) == Covered(g, list, x)
  {
  }

  lemma PrefixStepExactIff(r: Reading, c1: Contract, c2: Contract)
    requires IsPrefixReading(r)
    ensures StepExact(r, c1, c2) <==> PrefixStepOk(c1, c2)
  {
    DimensionsAreExact();
    ListStepIff(PREFIX_PATHS, r.inPath, c1.onlyPaths, c2.onlyPaths);
    ListStepIff(EQUAL_DOMAINS, r.inDomain, c1.onlyDomains, c2.onlyDomains);
  }

  lemma ListStepIff(d: Dimension, f: (string, string) -> bool, a: set<string>, b: set<string>)
    requires ExactMeet(d) && forall y, e :: f(y, e) == d.isIn(y, e)
    ensures (forall x ::
        ListAllows(f, MergeLists(d.meet, a, b), x) <==> ListAllows(f, a, x) && ListAllows(f, b, x))
       <==> !Clash(d.meet, a, b)
  {
    forall l: set<string>, x ensures Covered(f, l, x) == Covered(d.isIn, l, x) { CoveredSame(f, d.isIn, l, x); }
    if Clash(d.meet, a, b) {
      var e :| e in a;
      assert d.isIn(e, e) && Covered(d.isIn, a, e);
      assert !Covered(d.isIn, d.meet(a, b), e);
      assert ListAllows(f, MergeLists(d.meet, a, b), e);
    } else {
      forall x ensures ListAllows(f, MergeLists(d.meet, a, b), x) <==> ListAllows(f, a, x) && ListAllows(f, b, x) {
        assert Covered(d.isIn, d.meet(a, b), x) <==> Covered(d.isIn, a, x) && Covered(d.isIn, b, x);
      }
    }
  }

  /** Under the kernel's own matching a merge step is exact iff its lists neither clash, nor meet
      off a component boundary, nor drop a listed subdomain. */
  lemma KernelStepExactIff(r: Reading, c1: Contract, c2: Contract)
    requires IsKernel(r)
    ensures StepExact(r, c1, c2) <==> KernelStepOk(c1, c2)
  {
    KernelPathsStepIff(r.inPath, c1.onlyPaths, c2.onlyPaths);
    KernelDomainsStepIff(r.inDomain, c1.onlyDomains, c2.onlyDomains);
  }

  lemma KernelPathsStepIff(f: (string, string) -> bool, a: set<string>, b: set<string>)
    requires forall y, e :: f(y, e) == Within(y, e)
    ensures (forall x ::
        ListAllows(f, MergeLists(IntersectPrefixes, a, b), x) <==> ListAllows(f, a, x) && ListAllows(f, b, x))
       <==> !Clash(IntersectPrefixes, a, b) && (a != {} && b != {} ==> OnBoundaries(a, b))
  {
    if Covered(Within, a, "") && Covered(Within, b, "") { KernelPathsComplete(a, b, ""); }
    KernelListIff(f, Within, IntersectPrefixes, a, b);
    KernelPathsExactIff(a, b);
  }

  lemma KernelDomainsStepIff(f: (string, string) -> bool, a: set<string>, b: set<string>)
    requires forall y, e :: f(y, e) == UnderDomain(y, e)
    ensures (forall x ::
        ListAllows(f, MergeLists(CommonEntries, a, b), x) <==> ListAllows(f, a, x) && ListAllows(f, b, x))
       <==> !Clash(CommonEntries, a, b) && (a != {} && b != {} ==> SubdomainsKept(a, b))
  {
    if Covered(UnderDomain, a, "") && Covered(UnderDomain, b, "") { assert "" in CommonEntries(a, b); }
    KernelListIff(f, UnderDomain, CommonEntries, a, b);
    KernelDomainsExactIff(a, b);
  }

  /** Two real restrictions merge exactly iff their meet is exact and not empty. */
  lemma KernelListIff(f: (string, string) -> bool, g: (string, string) -> bool,
                      meet: (set<string>, set<string>) -> set<string>, a: set<string>, b: set<string>)
    requires forall y, e :: f(y, e) == g(y, e)
    requires meet(a, b) == {} ==> !(Covered(g, a, "") && Covered(g, b, ""))
    ensures (forall x :: ListAllows(f, MergeLists(meet, a, b), x) <==> ListAllows(f, a, x) && ListAllows(f, b, x))
       <==> a == {} || b == {} || (meet(a, b) != {} && forall x ::
           Covered(g, meet(a, b), x) <==> Covered(g, a, x) && Covered(g, b, x))
  {
    forall l: set<string>, x ensures Covered(f, l, x) == Covered(g, l, x) { CoveredSame(f, g, l, x); }
    if a != {} && b != {} {
      assert MergeLists(meet, a, b) == meet(a, b);
      if meet(a, b) == {} {
        assert ListAllows(f, meet(a, b), "");
      } else {
        forall x ensures ListAllows(f, meet(a, b), x) == Covered(g, meet(a, b), x)
                 && ListAllows(f, a, x) == Covered(g, a, x) && ListAllows(f, b, x) == Covered(g, b, x) {}
      }
    }
  }

  /** A merge whose list dimensions are exact permits an action iff both contracts do, in the six
      dimensions it carries over. */
  lemma MergePermits(r: Reading, c1: Contract, c2: Contract, a: Action)
    requires StepExact(r, c1, c2)
    ensures Permits(r, Merge(c1, c2), a) <==> Permits(r, Six(c1), a) && Permits(r, Six(c2), a)
  {
  }

  /** Each merge along the path is exact. */
  ghost predicate StepsExact(r: Reading, path: seq<Contract>) {
    |path| >= 2 ==>
      && StepsExact(r, path[..|path| - 1])
      && StepExact(r, Effective(path[..|path| - 1]).value, path[|path| - 1])
  }

  ghost predicate AllPermit(r: Reading, path: seq<Contract>, a: Action) {
    forall i :: 0 <= i < |path| ==> Permits(r, Six(path[i]), a)
  }

  lemma AllPermitSnoc(r: Reading, path: seq<Contract>, c: Contract, a: Action)
    ensures AllPermit(r, path + [c], a) <==> AllPermit(r, path, a) && Permits(r, Six(c), a)
  {
    var all := path + [c];
    assert all[|path|] == c;
    assert forall i :: 0 <= i < |path| ==> all[i] == path[i];
  }

  /** The effective contract of a delegation path permits an action iff every contract on the path
      does, in the six merged dimensions. */
  lemma {:induction false} EffectivePermits(r: Reading, path: seq<Contract>, a: Action)
    requires path != [] && StepsExact(r, path)
    ensures Permits(r, Six(Effective(path).value), a) <==> AllPermit(r, path, a)
  {
    if |path| >= 2 {
      var init := path[..|path| - 1];
      var last := path[|path| - 1];
      EffectivePermits(r, init, a);
      MergePermits(r, Effective(init).value, last, a);
      AllPermitSnoc(r, init, last, a);
      assert path == init + [last];
      assert Six(Effective(path).value) == Effective(path).value;
    } else {
      assert Effective(path[..0]) == None;
    }
  }

  // ---- whole paths: what can be checked beforehand, for each reading -----------------------------------

  /** The dimensions every merge meets exactly. */
  ghost predicate PermitsRest(r: Reading, c: Contract, a: Action) {
    && (forall s :: s in c.deny ==> !r.breaks(Deny(s), a))
    && (forall s :: s in c.denyCommands ==> !r.breaks(DenyCommand(s), a))
    && (forall s :: s in c.invariants ==> !r.breaks(Invariant(s), a))
    && RangesAllow(c.valueRange, a.numbers)
  }

  lemma {:induction false} EffectiveRest(r: Reading, path: seq<Contract>, a: Action)
    requires path != []
    ensures Effective(path).Some?
    ensures PermitsRest(r, Effective(path).value, a) <==> forall i :: 0 <= i < |path| ==> PermitsRest(r, path[i], a)
  {
    var init, last := path[..|path| - 1], path[|path| - 1];
    if init != [] {
      EffectiveRest(r, init, a);
      RangesMeet(Effective(init).value.valueRange, last.valueRange, a.numbers);
      assert forall i :: 0 <= i < |path| ==> path[i] == if i < |init| then init[i] else last;
    }
  }

  /** Permission by the effective contract and by all of the path, dimension by dimension. */
  lemma EffectiveByDimension(r: Reading, path: seq<Contract>, a: Action)
    requires path != []
    ensures Effective(path).Some?
    ensures Permits(r, Six(Effective(path).value), a) <==>
              && (forall i :: 0 <= i < |path| ==> PermitsRest(r, path[i], a))
              && (forall p :: p in a.paths ==> ListAllows(r.inPath, FoldLists(IntersectPrefixes, PathLists(path)), p))
              && (forall d :: d in a.domains ==> ListAllows(r.inDomain, FoldLists(CommonEntries, DomainLists(path)), d))
  {
    EffectiveRest(r, path, a);
    EffectiveLists(path);
    SixByDimension(r, Effective(path).value, a);
  }

  lemma AllByDimension(r: Reading, path: seq<Contract>, a: Action)
    ensures AllPermit(r, path, a) <==>
              && (forall i :: 0 <= i < |path| ==> PermitsRest(r, path[i], a))
              && (forall p :: p in a.paths ==> AllAllow(r.inPath, PathLists(path), p))
              && (forall d :: d in a.domains ==> AllAllow(r.inDomain, DomainLists(path), d))
  {
    forall i | 0 <= i < |path|
      ensures Permits(r, Six(path[i]), a) <==>
                && PermitsRest(r, path[i], a)
                && (forall p :: p in a.paths ==> ListAllows(r.inPath, PathLists(path)[i], p))
                && (forall d :: d in a.domains ==> ListAllows(r.inDomain, DomainLists(path)[i], d))
    {
      SixByDimension(r, path[i], a);
    }
  }

  lemma SixByDimension(r: Reading, c: Contract, a: Action)
    ensures Permits(r, Six(c), a) <==>
              && PermitsRest(r, c, a)
              && (forall p :: p in a.paths ==> ListAllows(r.inPath, c.onlyPaths, p))
              && (forall d :: d in a.domains ==> ListAllows(r.inDomain, c.onlyDomains, d))
  {
  }

  /** Whatever the rules match, the effective contract permits no more than all the contracts of the path. */
  ghost predicate NeverLooser(kernel: bool, path: seq<Contract>)
    requires Effective(path).Some?
  {
    forall breaks, a ::
        Permits(ReadAs(kernel, breaks), Six(Effective(path).value), a) ==> AllPermit(ReadAs(kernel, breaks), path, a)
  }

  ghost predicate IsIntersection(kernel: bool, path: seq<Contract>)
    requires Effective(path).Some?
  {
    forall breaks, a ::
        Permits(ReadAs(kernel, breaks), Six(Effective(path).value), a) <==> AllPermit(ReadAs(kernel, breaks), path, a)
  }

  /** No step clashes, and for the kernel each folded path entry lies within every list. */
  ghost predicate PathNarrows(kernel: bool, path: seq<Contract>) {
    && NoClash(IntersectPrefixes, PathLists(path)) && NoClash(CommonEntries, DomainLists(path))
    && (kernel ==> EntriesAllowed(Within, FoldLists(IntersectPrefixes, PathLists(path)), PathLists(path)))
  }

  /** ... and no listed subdomain is lost. */
  ghost predicate PathChecked(kernel: bool, path: seq<Contract>) {
    PathNarrows(kernel, path) && (kernel ==> ListedKept(DomainLists(path)))
  }

  ghost predicate NoMoreThanAll(isIn: (string, string) -> bool, fold: set<string>, lists: seq<set<string>>) {
    forall x :: ListAllows(isIn, fold, x) ==> AllAllow(isIn, lists, x)
  }

  ghost predicate SameAsAll(isIn: (string, string) -> bool, fold: set<string>, lists: seq<set<string>>) {
    forall x :: ListAllows(isIn, fold, x) <==> AllAllow(isIn, lists, x)
  }

  /** When the lists agree, so do the contracts. */
  lemma ListsSuffice(r: Reading, path: seq<Contract>, a: Action)
    requires path != []
    requires NoMoreThanAll(r.inPath, FoldLists(IntersectPrefixes, PathLists(path)), PathLists(path))
    requires NoMoreThanAll(r.inDomain, FoldLists(CommonEntries, DomainLists(path)), DomainLists(path))
    ensures Effective(path).Some? && (Permits(r, Six(Effective(path).value), a) ==> AllPermit(r, path, a))
    ensures SameAsAll(r.inPath, FoldLists(IntersectPrefixes, PathLists(path)), PathLists(path))
         && SameAsAll(r.inDomain, FoldLists(CommonEntries, DomainLists(path)), DomainLists(path))
         ==> (Permits(r, Six(Effective(path).value), a) <==> AllPermit(r, path, a))
  {
    EffectiveByDimension(r, path, a);
    AllByDimension(r, path, a);
  }

  predicate NoRuleBreaks(rule: Rule, a: Action) { false }

  const NO_NUMBERS: map<string, real> := map[]

  lemma NothingForbidden(r: Reading, c: Contract, a: Action)
    requires r.breaks == NoRuleBreaks && a.numbers == map[]
    ensures PermitsRest(r, c, a)
  {
  }

  /** An action that names one path is judged by the path lists alone. */
  lemma OnePath(kernel: bool, path: seq<Contract>, p: string)
    requires path != []
    ensures var r, a := ReadAs(kernel, NoRuleBreaks), Action({p}, {}, NO_NUMBERS, "");
            && Effective(path).Some?
            && (Permits(r, Six(Effective(path).value), a) <==>
                ListAllows(r.inPath, FoldLists(IntersectPrefixes, PathLists(path)), p))
            && (AllPermit(r, path, a) <==> AllAllow(r.inPath, PathLists(path), p))
  {
    var r, a := ReadAs(kernel, NoRuleBreaks), Action({p}, {}, NO_NUMBERS, "");
    EffectiveByDimension(r, path, a);
    AllByDimension(r, path, a);
    forall i | 0 <= i < |path| ensures PermitsRest(r, path[i], a) { NothingForbidden(r, path[i], a); }
    assert p in a.paths;
  }

  lemma OneDomain(kernel: bool, path: seq<Contract>, d: string)
    requires path != []
    ensures var r, a := ReadAs(kernel, NoRuleBreaks), Action({}, {d}, NO_NUMBERS, "");
            && Effective(path).Some?
            && (Permits(r, Six(Effective(path).value), a) <==>
                ListAllows(r.inDomain, FoldLists(CommonEntries, DomainLists(path)), d))
            && (AllPermit(r, path, a) <==> AllAllow(r.inDomain, DomainLists(path), d))
  {
    var r, a := ReadAs(kernel, NoRuleBreaks), Action({}, {d}, NO_NUMBERS, "");
    EffectiveByDimension(r, path, a);
    AllByDimension(r, path, a);
    forall i | 0 <= i < |path| ensures PermitsRest(r, path[i], a) { NothingForbidden(r, path[i], a); }
    assert d in a.domains;
  }

  /** The list folds under each reading, by the theorems above. */
  lemma ListFolds(kernel: bool, path: seq<Contract>)
    ensures var r, ps, ds := ReadAs(kernel, NoRuleBreaks), PathLists(path), DomainLists(path);
            var fp, fd := FoldLists(IntersectPrefixes, ps), FoldLists(CommonEntries, ds);
            && (PathNarrows(kernel, path) <==> NoMoreThanAll(r.inPath, fp, ps) && NoMoreThanAll(r.inDomain, fd, ds))
            && (PathChecked(kernel, path) <==> SameAsAll(r.inPath, fp, ps) && SameAsAll(r.inDomain, fd, ds))
  {
    if kernel {
      KernelPathsFoldIff(PathLists(path));
      KernelDomainsFoldSoundIff(DomainLists(path));
      KernelDomainsFoldIff(DomainLists(path));
    } else {
      DimensionsAreExact();
      FoldIsIntersectionIff(PREFIX_PATHS, PathLists(path));
      FoldIsIntersectionIff(EQUAL_DOMAINS, DomainLists(path));
    }
  }

  lemma IntersectionDecidesLists(kernel: bool, path: seq<Contract>)
    requires path != [] && Effective(path).Some? && IsIntersection(kernel, path)
    ensures var r := ReadAs(kernel, NoRuleBreaks);
            && SameAsAll(r.inPath, FoldLists(IntersectPrefixes, PathLists(path)), PathLists(path))
            && SameAsAll(r.inDomain, FoldLists(CommonEntries, DomainLists(path)), DomainLists(path))
  {
    var r := ReadAs(kernel, NoRuleBreaks);
    forall p ensures ListAllows(r.inPath, FoldLists(IntersectPrefixes, PathLists(path)), p) <==>
        AllAllow(r.inPath, PathLists(path), p) {
      OnePath(kernel, path, p);
    }
    forall d ensures ListAllows(r.inDomain, FoldLists(CommonEntries, DomainLists(path)), d) <==>
        AllAllow(r.inDomain, DomainLists(path), d) {
      OneDomain(kernel, path, d);
    }
  }

  lemma NarrowingDecidesLists(kernel: bool, path: seq<Contract>)
    requires path != [] && Effective(path).Some? && NeverLooser(kernel, path)
    ensures var r := ReadAs(kernel, NoRuleBreaks);
            && NoMoreThanAll(r.inPath, FoldLists(IntersectPrefixes, PathLists(path)), PathLists(path))
            && NoMoreThanAll(r.inDomain, FoldLists(CommonEntries, DomainLists(path)), DomainLists(path))
  {
    var r := ReadAs(kernel, NoRuleBreaks);
    forall p | ListAllows(r.inPath, FoldLists(IntersectPrefixes, PathLists(path)), p)
        ensures AllAllow(r.inPath, PathLists(path), p) {
      OnePath(kernel, path, p);
    }
    forall d | ListAllows(r.inDomain, FoldLists(CommonEntries, DomainLists(path)), d)
        ensures AllAllow(r.inDomain, DomainLists(path), d) {
      OneDomain(kernel, path, d);
    }
  }

  /** The effective contract of any delegation path permits exactly what every contract on it permits, in
      the six merged dimensions and for every matcher of rules, iff the path passes the check. */
  lemma CheckedPathIsIntersection(kernel: bool, path: seq<Contract>)
    requires path != []
    ensures Effective(path).Some? && (IsIntersection(kernel, path) <==> PathChecked(kernel, path))
  {
    EffectiveRest(ReadAs(kernel, NoRuleBreaks), path, Action({}, {}, NO_NUMBERS, ""));
    ListFolds(kernel, path);
    if PathChecked(kernel, path) {
      forall breaks, a
        ensures Permits(ReadAs(kernel, breaks), Six(Effective(path).value), a) <==>
            AllPermit(ReadAs(kernel, breaks), path, a)
      {
        ListsSuffice(ReadAs(kernel, breaks), path, a);
      }
    }
    if IsIntersection(kernel, path) { IntersectionDecidesLists(kernel, path); }
  }

  /** The effective contract is never looser than any contract on the path, in the six dimensions, iff
      no step clashes and, for the kernel, each folded path entry lies within every list. */
  lemma NeverLooserIff(kernel: bool, path: seq<Contract>)
    requires path != []
    ensures Effective(path).Some? && (NeverLooser(kernel, path) <==> PathNarrows(kernel, path))
  {
    EffectiveRest(ReadAs(kernel, NoRuleBreaks), path, Action({}, {}, NO_NUMBERS, ""));
    ListFolds(kernel, path);
    if PathNarrows(kernel, path) {
      forall breaks, a | Permits(ReadAs(kernel, breaks), Six(Effective(path).value), a)
        ensures AllPermit(ReadAs(kernel, breaks), path, a)
      {
        ListsSuffice(ReadAs(kernel, breaks), path, a);
      }
    }
    if NeverLooser(kernel, path) { NarrowingDecidesLists(kernel, path); }
  }

  // ---- one merge: exactly when it is never looser than either contract ---------------------------------

  ghost predicate MergeNarrows(kernel: bool, c1: Contract, c2: Contract) {
    forall breaks, a :: Permits(ReadAs(kernel, breaks), Merge(c1, c2), a) ==>
      Permits(ReadAs(kernel, breaks), c1, a) && Permits(ReadAs(kernel, breaks), c2, a)
  }

  /** No clash, and for the kernel no meet off a component boundary. */
  ghost predicate NarrowStepOk(kernel: bool, c1: Contract, c2: Contract) {
    PrefixStepOk(c1, c2) && (kernel ==> OnBoundaries(c1.onlyPaths, c2.onlyPaths))
  }

  lemma EffectiveOfTwo(c1: Contract, c2: Contract)
    ensures Effective([c1]) == Some(c1)
    ensures Effective([c1, c2]) == Some(Merge(c1, c2))
  {
    assert [c1][..0] == [] && Effective([]) == None;
    assert [c1, c2][..1] == [c1];
  }

  /** There is an effective contract iff the agent was found on a path. */
  lemma FoundIffEffective(path: seq<Contract>)
    ensures Effective(path).Some? <==> path != []
  {
    if path != [] { EffectiveLists(path); }
  }

  /** Two ranges for one number, in figures: the merge allows it iff it lies in both, ends included. */
  lemma MergedRangeAllows(c1: Contract, c2: Contract, key: string, lo1: real, hi1: real, lo2: real, hi2: real, v: real)
    requires c1.valueRange == map[key := Bounds(Some(lo1), Some(hi1))]
    requires c2.valueRange == map[key := Bounds(Some(lo2), Some(hi2))]
    ensures RangesAllow(Merge(c1, c2).valueRange, map[key := v]) <==> lo1 <= v <= hi1 && lo2 <= v <= hi2
  {
    var numbers := map[key := v];
    RangesMeet(c1.valueRange, c2.valueRange, numbers);
    assert key in numbers && numbers[key] == v;
  }

  lemma AllOfTwo(r: Reading, c1: Contract, c2: Contract, a: Action)
    ensures AllPermit(r, [c1, c2], a) <==> Permits(r, Six(c1), a) && Permits(r, Six(c2), a)
  {
    var path := [c1, c2];
    assert path[0] == c1 && path[1] == c2;
  }

  lemma StepOfPath(kernel: bool, c1: Contract, c2: Contract)
    ensures PathNarrows(kernel, [c1, c2]) <==> NarrowStepOk(kernel, c1, c2)
  {
    var path := [c1, c2];
    FoldOfTwo(IntersectPrefixes, PathLists(path));
    FoldOfTwo(CommonEntries, DomainLists(path));
    var a, b := c1.onlyPaths, c2.onlyPaths;
    var fold := FoldLists(IntersectPrefixes, PathLists(path));
    forall q | q in fold ensures AllAllow(Within, PathLists(path), q) <==>
        ListAllows(Within, a, q) && ListAllows(Within, b, q) {
      assert PathLists(path)[0] == a && PathLists(path)[1] == b;
    }
    assert forall q: string :: Within(q, q);
  }

  lemma FoldOfTwo(meet: (set<string>, set<string>) -> set<string>, lists: seq<set<string>>)
    requires |lists| == 2
    ensures FoldLists(meet, lists) == MergeLists(meet, lists[0], lists[1])
    ensures NoClash(meet, lists) <==> !Clash(meet, lists[0], lists[1])
  {
    assert lists[..1] == [lists[0]];
  }

  /** A merge is never looser than either contract, whatever their rules match, iff its lists do not clash,
      for the kernel do not meet off a component boundary, and neither contract has rules the merge drops. */
  lemma MergeNeverLooserIff(kernel: bool, c1: Contract, c2: Contract)
    ensures MergeNarrows(kernel, c1, c2) <==> NarrowStepOk(kernel, c1, c2) && c1.others == {} && c2.others == {}
  {
    StepOfPath(kernel, c1, c2);
    NeverLooserIff(kernel, [c1, c2]);
    EffectiveOfTwo(c1, c2);
    if MergeNarrows(kernel, c1, c2) {
      NarrowingSteps(kernel, c1, c2);
      if s :| s in c1.others { LostRuleLoosens(kernel, c1, c2, s); }
      if s :| s in c2.others {
        MergeCommutes(c1, c2);
        LostRuleLoosens(kernel, c2, c1, s);
      }
    } else if NarrowStepOk(kernel, c1, c2) && c1.others == {} && c2.others == {} {
      StepsNarrow(kernel, c1, c2);
    }
  }

  lemma LostRuleLoosens(kernel: bool, c1: Contract, c2: Contract, s: string)
    requires s in c1.others
    ensures exists breaks, a ::
        Permits(ReadAs(kernel, breaks), Merge(c1, c2), a) && !Permits(ReadAs(kernel, breaks), c1, a)
  {
    var r := ReadAs(kernel, NoRuleBreaks);
    EffectiveOfTwo(c1, c2);
    OtherRulesAreLost(c1, c2, s, r);
    var breaks, a :| !Permits(r.(breaks := breaks), c1, a) && Permits(r.(breaks := breaks), Merge(c1, c2), a);
    assert r.(breaks := breaks) == ReadAs(kernel, breaks);
  }

  lemma NarrowingSteps(kernel: bool, c1: Contract, c2: Contract)
    requires MergeNarrows(kernel, c1, c2)
    ensures Effective([c1, c2]).Some? && NeverLooser(kernel, [c1, c2])
  {
    EffectiveOfTwo(c1, c2);
    assert Six(Merge(c1, c2)) == Merge(c1, c2);
    forall breaks, a | Permits(ReadAs(kernel, breaks), Six(Effective([c1, c2]).value), a)
      ensures AllPermit(ReadAs(kernel, breaks), [c1, c2], a)
    {
      AllOfTwo(ReadAs(kernel, breaks), c1, c2, a);
    }
  }

  lemma StepsNarrow(kernel: bool, c1: Contract, c2: Contract)
    requires Effective([c1, c2]).Some? && NeverLooser(kernel, [c1, c2]) && c1.others == {} && c2.others == {}
    ensures MergeNarrows(kernel, c1, c2)
  {
    EffectiveOfTwo(c1, c2);
    assert Six(Merge(c1, c2)) == Merge(c1, c2) && Six(c1) == c1 && Six(c2) == c2;
    forall breaks, a | Permits(ReadAs(kernel, breaks), Merge(c1, c2), a)
      ensures Permits(ReadAs(kernel, breaks), c1, a) && Permits(ReadAs(kernel, breaks), c2, a)
    {
      AllOfTwo(ReadAs(kernel, breaks), c1, c2, a);
      assert Permits(ReadAs(kernel, breaks), Six(Effective([c1, c2]).value), a);
    }
  }

  /** Extending a delegation path never permits more than the path or the newcomer did, in the six
      dimensions, iff the new step passes the check. */
  lemma ExtensionOnlyNarrows(kernel: bool, path: seq<Contract>, c: Contract)
    requires path != []
    ensures Effective(path).Some? && Effective(path + [c]) == Some(Merge(Effective(path).value, c))
    ensures (forall breaks, a :: Permits(ReadAs(kernel, breaks), Effective(path + [c]).value, a) ==>
               && Permits(ReadAs(kernel, breaks), Six(Effective(path).value), a)
               && Permits(ReadAs(kernel, breaks), Six(c), a))
       <==> NarrowStepOk(kernel, Effective(path).value, c)
  {
    EffectiveLists(path);
    assert (path + [c])[..|path|] == path;
    var e := Effective(path).value;
    assert Merge(e, c) == Merge(Six(e), Six(c));
    MergeNeverLooserIff(kernel, Six(e), Six(c));
  }

  lemma MergeCommutes(c1: Contract, c2: Contract)
    ensures Merge(c1, c2) == Merge(c2, c1)
  {
  }

  /** Merging a contract with itself changes nothing but what every merge drops: the dimensions it
      does not carry and ranges that bound nothing. */
  lemma MergeIdempotent(c: Contract)
    ensures Merge(c, c) == Six(c).(valueRange := map k | k in c.valueRange && c.valueRange[k] != Bounds(None, None) ::
        c.valueRange[k])
  {
  }

  /** Three contracts, merged from the left, meet no two restrictions with nothing in common. */
  ghost predicate Overlap(c1: Contract, c2: Contract, c3: Contract) {
    PrefixStepOk(c1, c2) && PrefixStepOk(Merge(c1, c2), c3)
  }

  /** Contracts that overlap when merged from the left overlap when merged from the right, and then
      both orders give the same contract, hence the same meaning under any reading. */
  lemma MergeAssociates(c1: Contract, c2: Contract, c3: Contract)
    ensures Overlap(c1, c2, c3) <==> PrefixStepOk(c2, c3) && PrefixStepOk(c1, Merge(c2, c3))
    ensures Overlap(c1, c2, c3) ==> Merge(Merge(c1, c2), c3) == Merge(c1, Merge(c2, c3))
  {
    PrefixMeetLaws(c1.onlyPaths, c2.onlyPaths, c3.onlyPaths);
    ListsAssociate(IntersectPrefixes, c1.onlyPaths, c2.onlyPaths, c3.onlyPaths);
    ListsAssociate(CommonEntries, c1.onlyDomains, c2.onlyDomains, c3.onlyDomains);
    RangesAssociate(c1.valueRange, c2.valueRange, c3.valueRange);
  }

  lemma InIntersection(a: set<string>, b: set<string>, q: string)
    ensures q in IntersectPrefixes(a, b) <==> (q in a || q in b) && Covered(HasPrefix, a, q) && Covered(HasPrefix, b, q)
  {
    assert HasPrefix(q, q);
  }

  lemma PrefixMeetLaws(a: set<string>, b: set<string>, c: set<string>)
    ensures IntersectPrefixes(IntersectPrefixes(a, b), c) == IntersectPrefixes(a, IntersectPrefixes(b, c))
    ensures IntersectPrefixes({}, c) == {} && IntersectPrefixes(a, {}) == {}
  {
    forall q ensures q in IntersectPrefixes(IntersectPrefixes(a, b), c) <==>
        q in IntersectPrefixes(a, IntersectPrefixes(b, c)) {
      InIntersection(IntersectPrefixes(a, b), c, q);
      InIntersection(a, IntersectPrefixes(b, c), q);
      InIntersection(a, b, q);
      InIntersection(b, c, q);
      PrefixIntersection(a, b, q);
      PrefixIntersection(b, c, q);
    }
  }

  lemma ListsAssociate(meet: (set<string>, set<string>) -> set<string>, a: set<string>, b: set<string>, c: set<string>)
    requires meet(meet(a, b), c) == meet(a, meet(b, c)) && meet({}, c) == {} && meet(a, {}) == {}
    ensures !Clash(meet, a, b) && !Clash(meet, MergeLists(meet, a, b), c) <==>
        !Clash(meet, b, c) && !Clash(meet, a, MergeLists(meet, b, c))
    ensures !Clash(meet, a, b) && !Clash(meet, MergeLists(meet, a, b), c) ==>
              MergeLists(meet, MergeLists(meet, a, b), c) == MergeLists(meet, a, MergeLists(meet, b, c))
  {
  }

  lemma RangeOfMerged(vr1: map<string, Bounds>, vr2: map<string, Bounds>, key: string)
    ensures RangeOf(MergeRanges(vr1, vr2), key) == MergeBounds(RangeOf(vr1, key), RangeOf(vr2, key))
    ensures key in MergeRanges(vr1, vr2) <==> RangeOf(MergeRanges(vr1, vr2), key) != Bounds(None, None)
  {
  }

  lemma RangeAssociatesAt(vr1: map<string, Bounds>, vr2: map<string, Bounds>, vr3: map<string, Bounds>, key: string)
    ensures RangeOf(MergeRanges(MergeRanges(vr1, vr2), vr3), key)
        == RangeOf(MergeRanges(vr1, MergeRanges(vr2, vr3)), key)
  {
    RangeOfMerged(vr1, vr2, key);
    RangeOfMerged(vr2, vr3, key);
    RangeOfMerged(MergeRanges(vr1, vr2), vr3, key);
    RangeOfMerged(vr1, MergeRanges(vr2, vr3), key);
  }

  /** Merged ranges are determined by what they bound. */
  lemma SameRanges(vr1: map<string, Bounds>, vr2: map<string, Bounds>)
    requires forall key :: RangeOf(vr1, key) == RangeOf(vr2, key)
    requires forall key :: key in vr1 <==> RangeOf(vr1, key) != Bounds(None, None)
    requires forall key :: key in vr2 <==> RangeOf(vr2, key) != Bounds(None, None)
    ensures vr1 == vr2
  {
    forall key | key in vr1 ensures key in vr2 && vr1[key] == vr2[key] {
      assert RangeOf(vr1, key) == RangeOf(vr2, key);
    }
    assert vr1.Keys == vr2.Keys by {
      forall key ensures key in vr1 <==> key in vr2 { assert RangeOf(vr1, key) == RangeOf(vr2, key); }
    }
  }

  lemma RangesAssociate(vr1: map<string, Bounds>, vr2: map<string, Bounds>, vr3: map<string, Bounds>)
    ensures MergeRanges(MergeRanges(vr1, vr2), vr3) == MergeRanges(vr1, MergeRanges(vr2, vr3))
  {
    var left, right := MergeRanges(vr1, vr2), MergeRanges(vr2, vr3);
    forall key ensures RangeOf(MergeRanges(left, vr3), key) == RangeOf(MergeRanges(vr1, right), key) {
      RangeAssociatesAt(vr1, vr2, vr3, key);
    }
    forall key ensures key in MergeRanges(left, vr3) <==> RangeOf(MergeRanges(left, vr3), key) != Bounds(None, None) {
      RangeOfMerged(left, vr3, key);
    }
    forall key ensures key in MergeRanges(vr1, right) <==> RangeOf(MergeRanges(vr1, right), key) != Bounds(None, None) {
      RangeOfMerged(vr1, right, key);
    }
    SameRanges(MergeRanges(left, vr3), MergeRanges(vr1, right));
  }

  /** Without the hypothesis the order matters: a clash wipes the restriction out. */
  lemma ClashBreaksAssociativity()
    ensures FoldLists(IntersectPrefixes, [{"/x"}, {"/y"}, {"/z"}]) == {"/z"}
    ensures MergeLists(IntersectPrefixes, {"/x"}, MergeLists(IntersectPrefixes, {"/y"}, {"/z"})) == {"/x"}
  {
    assert "/x"[1] != "/y"[1] && "/y"[1] != "/z"[1];
    assert IntersectPrefixes({"/x"}, {"/y"}) == {} && IntersectPrefixes({"/y"}, {"/z"}) == {};
    var lists := [{"/x"}, {"/y"}, {"/z"}];
    assert lists[..2] == [{"/x"}, {"/y"}] && [{"/x"}, {"/y"}][..1] == [{"/x"}];
    assert FoldLists(IntersectPrefixes, [{"/x"}]) == {"/x"};
    assert FoldLists(IntersectPrefixes, [{"/x"}, {"/y"}]) == {};
  }

  /** A rule of a dimension the merge does not carry binds a path of one contract and is lost as soon as
      another joins: there is an action it forbids that any merge permits, however entries are read. */
  lemma OtherRulesAreLost(c: Contract, c2: Contract, s: string, r: Reading)
    requires s in c.others
    ensures exists breaks, a :: !Permits(r.(breaks := breaks), Effective([c]).value, a)
                             && Permits(r.(breaks := breaks), Effective([c, c2]).value, a)
  {
    var breaks := (rule: Rule, a: Action) => rule == OtherRule(s);
    var a := Action({}, {}, NO_NUMBERS, "");
    EffectiveOfTwo(c, c2);
    assert r.(breaks := breaks).breaks(OtherRule(s), a);
    assert !Permits(r.(breaks := breaks), c, a);
    assert Permits(r.(breaks := breaks), Merge(c, c2), a);
  }

  /** Two path restrictions with nothing in common permit together what neither permits. */
  lemma ClashPermitsMore(kernel: bool, c: Contract)
    requires c.onlyDomains == {} && c.deny == {} && c.denyCommands == {} && c.invariants == {} && c.valueRange == map[]
    ensures var x, y, a := c.(onlyPaths := {"/x"}), c.(onlyPaths := {"/y"}), Action({"/etc"}, {}, NO_NUMBERS, "");
            var r := ReadAs(kernel, NoRuleBreaks);
            Permits(r, Merge(x, y), a) && !Permits(r, x, a) && !Permits(r, y, a)
  {
    var x, y, a := c.(onlyPaths := {"/x"}), c.(onlyPaths := {"/y"}), Action({"/etc"}, {}, NO_NUMBERS, "");
    assert "/x"[1] != "/y"[1] && "/etc"[1] != "/x"[1] && "/etc"[1] != "/y"[1];
    assert IntersectPrefixes({"/x"}, {"/y"}) == {};
    var r := ReadAs(kernel, NoRuleBreaks);
    assert ("/x" + "/")[1] == 'x' && ("/y" + "/")[1] == 'y';
    assert "/etc" in a.paths && !r.inPath("/etc", "/x") && !r.inPath("/etc", "/y");
  }
}
