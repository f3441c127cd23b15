/** Restriction lists folded along a delegation path: exactly when the fold allows what every list
    allows, under the merge's own reading and under the kernel's (ystar/adapters/hook.py). */
module RestrictionLists {
  import opened Common
  import opened Contracts

  // ---- prefix lists ------------------------------------------------------------------

  /** A path has a prefix in the intersection iff it has one in each list. */
  lemma PrefixIntersection(a: set<string>, b: set<string>, p: string)
    ensures Covered(HasPrefix, IntersectPrefixes(a, b), p) <==> Covered(HasPrefix, a, p) && Covered(HasPrefix, b, p)
  {
  }

  lemma IntersectPrefixesLaws(a: set<string>, b: set<string>)
    ensures IntersectPrefixes(a, b) == IntersectPrefixes(b, a)
    ensures IntersectPrefixes(a, a) == a
  {
  }

  // ---- one restriction dimension, over a whole path ---------------------------------------

  /** A list dimension: when an entry covers a value, and how two lists meet. */
  datatype Dimension = Dimension(isIn: (string, string) -> bool, meet: (set<string>, set<string>) -> set<string>)

  /** Entries cover themselves, and a meet covers at least what both lists cover. */
  ghost predicate CompleteMeet(d: Dimension) {
    && (forall e :: d.isIn(e, e))
    && (forall a: set<string>, b: set<string>, x ::
        Covered(d.isIn, a, x) && Covered(d.isIn, b, x) ==> Covered(d.isIn, d.meet(a, b), x))
  }

  /** ... and no more than that. */
  ghost predicate ExactMeet(d: Dimension) {
    && CompleteMeet(d)
    && (forall a: set<string>, b: set<string>, x ::
        Covered(d.isIn, d.meet(a, b), x) ==> Covered(d.isIn, a, x) && Covered(d.isIn, b, x))
  }

  const PREFIX_PATHS := Dimension(HasPrefix, IntersectPrefixes)
  const EQUAL_DOMAINS := Dimension(SameDomain, CommonEntries)
  const KERNEL_PATHS := Dimension(Within, IntersectPrefixes)

  lemma DimensionsAreExact()
    ensures ExactMeet(PREFIX_PATHS) && ExactMeet(EQUAL_DOMAINS)
  {
  }

  /** Two restrictions with nothing in common, which the merge turns into no restriction. */
  ghost predicate Clash(meet: (set<string>, set<string>) -> set<string>, a: set<string>, b: set<string>) {
    a != {} && b != {} && meet(a, b) == {}
  }

  ghost function FoldLists(meet: (set<string>, set<string>) -> set<string>, lists: seq<set<string>>): set<string> {
    if lists == [] then {}
    else if |lists| == 1 then lists[0]
    else MergeLists(meet, FoldLists(meet, lists[..|lists| - 1]), lists[|lists| - 1])
  }

  ghost predicate NoClash(meet: (set<string>, set<string>) -> set<string>, lists: seq<set<string>>) {
    |lists| >= 2 ==>
      && NoClash(meet, lists[..|lists| - 1])
      && !Clash(meet, FoldLists(meet, lists[..|lists| - 1]), lists[|lists| - 1])
  }

  ghost predicate AllAllow(isIn: (string, string) -> bool, lists: seq<set<string>>, x: string) {
    forall i :: 0 <= i < |lists| ==> ListAllows(isIn, lists[i], x)
  }

  lemma AllAllowSnoc(isIn: (string, string) -> bool, lists: seq<set<string>>, x: string)
    requires lists != []
    ensures AllAllow(isIn, lists, x) <==>
        AllAllow(isIn, lists[..|lists| - 1], x) && ListAllows(isIn, lists[|lists| - 1], x)
  {
    var init := lists[..|lists| - 1];
    assert forall i :: 0 <= i < |init| ==> init[i] == lists[i];
  }

  /** The fold never forbids what every list allows. */
  lemma {:induction false} FoldComplete(d: Dimension, lists: seq<set<string>>, x: string)
    requires CompleteMeet(d) && AllAllow(d.isIn, lists, x)
    ensures ListAllows(d.isIn, FoldLists(d.meet, lists), x)
  {
    if |lists| >= 2 {
      AllAllowSnoc(d.isIn, lists, x);
      FoldComplete(d, lists[..|lists| - 1], x);
    }
  }

  lemma {:induction false} FoldListsExact(d: Dimension, lists: seq<set<string>>, x: string)
    requires ExactMeet(d) && NoClash(d.meet, lists)
    ensures ListAllows(d.isIn, FoldLists(d.meet, lists), x) <==> AllAllow(d.isIn, lists, x)
  {
    if |lists| >= 2 {
      FoldListsExact(d, lists[..|lists| - 1], x);
      AllAllowSnoc(d.isIn, lists, x);
    }
  }

  /** Some value is allowed by every folded list: a fold is never a restriction nothing meets. */
  lemma FoldAllowsSomething(d: Dimension, lists: seq<set<string>>) returns (x: string)
    requires CompleteMeet(d)
    ensures ListAllows(d.isIn, FoldLists(d.meet, lists), x)
  {
    x := "";
    if e :| e in FoldLists(d.meet, lists) {
      x := e;
      assert d.isIn(e, e);
    }
  }

  lemma ClashSeparates(d: Dimension, a: set<string>, b: set<string>, x: string)
    requires CompleteMeet(d) && Clash(d.meet, a, b)
    ensures !(ListAllows(d.isIn, a, x) && ListAllows(d.isIn, b, x))
  {
    assert !Covered(d.isIn, d.meet(a, b), x);
  }

  /** After a clash nothing is allowed by every list. */
  lemma {:induction false} ClashAllowsNothing(d: Dimension, lists: seq<set<string>>, x: string)
    requires CompleteMeet(d) && !NoClash(d.meet, lists)
    ensures !AllAllow(d.isIn, lists, x)
  {
    AllAllowSnoc(d.isIn, lists, x);
    var init := lists[..|lists| - 1];
    if !NoClash(d.meet, init) {
      ClashAllowsNothing(d, init, x);
    } else {
      ClashSeparates(d, FoldLists(d.meet, init), lists[|lists| - 1], x);
      if AllAllow(d.isIn, init, x) { FoldComplete(d, init, x); }
    }
  }

  /** For any path of lists: the fold allows exactly what every list allows iff no step meets two
      restrictions that have nothing in common. */
  lemma FoldIsIntersectionIff(d: Dimension, lists: seq<set<string>>)
    requires ExactMeet(d)
    ensures (forall x :: ListAllows(d.isIn, FoldLists(d.meet, lists), x) <==> AllAllow(d.isIn, lists, x)) <==>
        NoClash(d.meet, lists)
    ensures (forall x :: ListAllows(d.isIn, FoldLists(d.meet, lists), x) ==> AllAllow(d.isIn, lists, x)) <==>
        NoClash(d.meet, lists)
  {
    if NoClash(d.meet, lists) {
      forall x ensures ListAllows(d.isIn, FoldLists(d.meet, lists), x) <==> AllAllow(d.isIn, lists, x) {
        FoldListsExact(d, lists, x);
      }
    } else {
      var x := FoldAllowsSomething(d, lists);
      ClashAllowsNothing(d, lists, x);
    }
  }

  // ---- one merge step under the kernel's reading ---------------------------------------------

  /** Every entry the intersection keeps lies within both lists: no raw prefix that stops inside a
      path component was taken for a parent directory. */
  ghost predicate OnBoundaries(a: set<string>, b: set<string>) {
    forall q :: q in IntersectPrefixes(a, b) ==> Covered(Within, a, q) && Covered(Within, b, q)
  }

  lemma WithinTransitive(p: string, q: string, e: string)
    requires Within(p, q) && Within(q, e)
    ensures Within(p, e)
  {
  }

  /** Under the kernel's reading the intersection never forbids too much ... */
  lemma KernelPathsComplete(a: set<string>, b: set<string>, p: string)
    requires Covered(Within, a, p) && Covered(Within, b, p)
    ensures Covered(Within, IntersectPrefixes(a, b), p)
  {
    var e1 :| e1 in a && Within(p, e1);
    var e2 :| e2 in b && Within(p, e2);
    assert e1 == p[..|e1|] && e2 == p[..|e2|];
    var q := if |e1| >= |e2| then e1 else e2;
    assert StartsWith(q, e1) && StartsWith(q, e2);
    assert q in IntersectPrefixes(a, b) && Within(p, q);
  }

  /** ... and is exact iff every kept entry lies on component boundaries of both lists. */
  lemma KernelPathsExactIff(a: set<string>, b: set<string>)
    ensures (forall p ::
        Covered(Within, IntersectPrefixes(a, b), p) <==> Covered(Within, a, p) && Covered(Within, b, p))
       <==> OnBoundaries(a, b)
  {
    if OnBoundaries(a, b) {
      forall p ensures Covered(Within, IntersectPrefixes(a, b), p) <==> Covered(Within, a, p) && Covered(Within, b, p) {
        if Covered(Within, IntersectPrefixes(a, b), p) {
          var q :| q in IntersectPrefixes(a, b) && Within(p, q);
          var e1 :| e1 in a && Within(q, e1);
          var e2 :| e2 in b && Within(q, e2);
          WithinTransitive(p, q, e1);
          WithinTransitive(p, q, e2);
        } else if Covered(Within, a, p) && Covered(Within, b, p) {
          KernelPathsComplete(a, b, p);
        }
      }
    } else {
      var q :| q in IntersectPrefixes(a, b) && !(Covered(Within, a, q) && Covered(Within, b, q));
      assert Within(q, q);
    }
  }

  /** A concrete pair on which the kernel's reading and the raw prefixes differ: the merge of a
      directory with a sibling that merely starts with its name lets the sibling through. */
  lemma KernelPathsWitness()
    ensures Covered(Within, IntersectPrefixes({"/home/u"}, {"/home/u2"}), "/home/u2")
    ensures !Covered(Within, {"/home/u"}, "/home/u2")
  {
    assert StartsWith("/home/u2", "/home/u");
    assert "/home/u2" in IntersectPrefixes({"/home/u"}, {"/home/u2"}) && Within("/home/u2", "/home/u2");
    assert ("/home/u" + "/")[7] == '/' && "/home/u2"[7] == '2';
  }

  /** Each listed domain the other list allows is also allowed by the common entries. */
  ghost predicate SubdomainsKept(a: set<string>, b: set<string>) {
    forall d ::
        d in a + b && Covered(UnderDomain, a, d) && Covered(UnderDomain, b, d) ==>
        Covered(UnderDomain, CommonEntries(a, b), d)
  }

  /** Under the kernel's reading of domains the common entries never allow too much, and are exact
      iff no listed subdomain of the other list's entry is lost. */
  lemma KernelDomainsExactIff(a: set<string>, b: set<string>)
    ensures forall d ::
        Covered(UnderDomain, CommonEntries(a, b), d) ==> Covered(UnderDomain, a, d) && Covered(UnderDomain, b, d)
    ensures (forall d ::
        Covered(UnderDomain, CommonEntries(a, b), d) <==> Covered(UnderDomain, a, d) && Covered(UnderDomain, b, d))
       <==> SubdomainsKept(a, b)
  {
  }

  lemma KernelDomainsWitness()
    ensures Covered(UnderDomain, {"api.x"}, "api.x") && Covered(UnderDomain, {"x", "y"}, "api.x")
    ensures CommonEntries({"api.x", "y"}, {"x", "y"}) == {"y"} && !Covered(UnderDomain, {"y"}, "api.x")
  {
  }

  // ---- a whole path of lists under the kernel's reading -------------------------------------------

  lemma Snoc(lists: seq<set<string>>)
    requires lists != []
    ensures forall l :: l in lists <==> l in lists[..|lists| - 1] || l == lists[|lists| - 1]
  {
    assert lists == lists[..|lists| - 1] + [lists[|lists| - 1]];
  }

  lemma {:induction false} EmptyFold(meet: (set<string>, set<string>) -> set<string>, lists: seq<set<string>>)
    requires NoClash(meet, lists) && FoldLists(meet, lists) == {}
    ensures forall l :: l in lists ==> l == {}
  {
    if |lists| >= 2 {
      Snoc(lists);
      EmptyFold(meet, lists[..|lists| - 1]);
    }
  }

  /** Every entry of one list is allowed by all the others. */
  ghost predicate EntriesAllowed(isIn: (string, string) -> bool, entries: set<string>, lists: seq<set<string>>) {
    forall q :: q in entries ==> AllAllow(isIn, lists, q)
  }

  /** Under the kernel's reading the path fold never forbids too much; it allows exactly what every list
      allows, and already never too much, iff no step clashes and each folded entry lies within every list. */
  lemma KernelPathsFoldIff(lists: seq<set<string>>)
    ensures var fold := FoldLists(IntersectPrefixes, lists);
            var ok := NoClash(IntersectPrefixes, lists) && EntriesAllowed(Within, fold, lists);
            && ((forall p :: ListAllows(Within, fold, p) ==> AllAllow(Within, lists, p)) <==> ok)
            && ((forall p :: ListAllows(Within, fold, p) <==> AllAllow(Within, lists, p)) <==> ok)
  {
    KernelPathsMeetComplete();
    var fold := FoldLists(IntersectPrefixes, lists);
    forall p | AllAllow(Within, lists, p) ensures ListAllows(Within, fold, p) { FoldComplete(KERNEL_PATHS, lists, p); }
    if !NoClash(IntersectPrefixes, lists) {
      var p := FoldAllowsSomething(KERNEL_PATHS, lists);
      ClashAllowsNothing(KERNEL_PATHS, lists, p);
    } else if EntriesAllowed(Within, fold, lists) {
      forall p | ListAllows(Within, fold, p) ensures AllAllow(Within, lists, p) { KernelPathsFoldSound(lists, p); }
    } else {
      var q :| q in fold && !AllAllow(Within, lists, q);
      assert Within(q, q);
    }
  }

  lemma KernelPathsMeetComplete()
    ensures CompleteMeet(KERNEL_PATHS)
  {
    forall a: set<string>, b: set<string>, p | Covered(Within, a, p) && Covered(Within, b, p)
      ensures Covered(Within, IntersectPrefixes(a, b), p) { KernelPathsComplete(a, b, p); }
  }

  lemma KernelPathsFoldSound(lists: seq<set<string>>, p: string)
    requires NoClash(IntersectPrefixes, lists) && EntriesAllowed(Within, FoldLists(IntersectPrefixes, lists), lists)
    requires ListAllows(Within, FoldLists(IntersectPrefixes, lists), p)
    ensures AllAllow(Within, lists, p)
  {
    if FoldLists(IntersectPrefixes, lists) == {} {
      EmptyFold(IntersectPrefixes, lists);
    } else {
      var q :| q in FoldLists(IntersectPrefixes, lists) && Within(p, q);
      forall i | 0 <= i < |lists| ensures ListAllows(Within, lists[i], p) {
        assert ListAllows(Within, lists[i], q);
        if e :| e in lists[i] && Within(q, e) { WithinTransitive(p, q, e); }
      }
    }
  }

  /** A domain listed by every restriction on the path. */
  ghost predicate InEvery(lists: seq<set<string>>, e: string) {
    forall l :: l in lists && l != {} ==> e in l
  }

  /** An entry common to all restrictions survives every step, and then no step can clash. */
  lemma {:induction false} CommonEntriesSurvive(lists: seq<set<string>>, e: string)
    requires InEvery(lists, e)
    ensures NoClash(CommonEntries, lists)
    ensures FoldLists(CommonEntries, lists) == {} || e in FoldLists(CommonEntries, lists)
  {
    if |lists| >= 2 {
      Snoc(lists);
      CommonEntriesSurvive(lists[..|lists| - 1], e);
      assert e in lists[|lists| - 1] && e in FoldLists(CommonEntries, lists[..|lists| - 1])
             ==> e in CommonEntries(FoldLists(CommonEntries, lists[..|lists| - 1]), lists[|lists| - 1]);
    }
  }

  lemma {:induction false} FoldIsCommon(lists: seq<set<string>>, e: string)
    requires NoClash(CommonEntries, lists) && e in FoldLists(CommonEntries, lists)
    ensures InEvery(lists, e)
  {
    if |lists| >= 2 {
      var init := lists[..|lists| - 1];
      Snoc(lists);
      if FoldLists(CommonEntries, init) == {} { EmptyFold(CommonEntries, init); } else { FoldIsCommon(init, e); }
    }
  }

  /** All entries of some strings are shorter than the result. */
  lemma LongerThanAll(u: set<string>) returns (n: nat)
    ensures forall s :: s in u ==> |s| < n
  {
    n := 0;
    if s :| s in u {
      var m := LongerThanAll(u - {s});
      n := if m > |s| then m else |s| + 1;
    }
  }

  /** What follows the first dot. */
  function Parent(d: string): string {
    if d == "" then "" else if d[0] == '.' then d[1..] else Parent(d[1..])
  }

  lemma {:induction false} ParentOf(head: string, e: string)
    requires '.' !in head
    ensures Parent(head + "." + e) == e
  {
    var d := head + "." + e;
    if head == "" {
      assert d[1..] == e;
    } else {
      assert d[1..] == head[1..] + "." + e;
      ParentOf(head[1..], e);
    }
  }

  /** A proper subdomain falls under one entry only. */
  lemma UnderParent(d: string, e: string)
    requires UnderDomain(d, e) && d != e
    ensures e == Parent(d)
  {
    var head := d[..|d| - |e| - 1];
    assert d == head + "." + e;
    ParentOf(head, e);
  }

  /** A subdomain no list spells out. */
  lemma FreshSubdomain(lists: seq<set<string>>, e: string) returns (d: string)
    ensures UnderDomain(d, e) && d != e
    ensures forall l :: l in lists ==> d !in l
  {
    var n := LongerThanAll(set i, s | 0 <= i < |lists| && s in lists[i] :: s);
    var head := seq(n, _ => 'a');
    d := head + "." + e;
    assert d[|head| + 1..] == e && d[..|head|] == head;
    forall l | l in lists ensures d !in l {
      var i :| 0 <= i < |lists| && lists[i] == l;
      assert d in l ==> |d| < n;
    }
  }

  /** A fold of domain lists allows more than every list allows iff some step clashes. */
  lemma KernelDomainsFoldSoundIff(lists: seq<set<string>>)
    ensures (forall d ::
        ListAllows(UnderDomain, FoldLists(CommonEntries, lists), d) ==> AllAllow(UnderDomain, lists, d))
       <==> NoClash(CommonEntries, lists)
  {
    var fold := FoldLists(CommonEntries, lists);
    if NoClash(CommonEntries, lists) {
      forall d | ListAllows(UnderDomain, fold, d) ensures AllAllow(UnderDomain, lists, d) {
        NoClashNarrows(lists, d);
      }
    } else {
      var _ := ClashAllowsTooMuch(lists);
    }
  }

  lemma NoClashNarrows(lists: seq<set<string>>, d: string)
    requires NoClash(CommonEntries, lists) && ListAllows(UnderDomain, FoldLists(CommonEntries, lists), d)
    ensures AllAllow(UnderDomain, lists, d)
  {
    var fold := FoldLists(CommonEntries, lists);
    if fold == {} {
      EmptyFold(CommonEntries, lists);
    } else {
      var e :| e in fold && UnderDomain(d, e);
      FoldIsCommon(lists, e);
    }
  }

  lemma ClashAllowsTooMuch(lists: seq<set<string>>) returns (d: string)
    requires !NoClash(CommonEntries, lists)
    ensures ListAllows(UnderDomain, FoldLists(CommonEntries, lists), d) && !AllAllow(UnderDomain, lists, d)
  {
    var fold := FoldLists(CommonEntries, lists);
    var e := if fold == {} then "" else var e :| e in fold; e;
    d := FreshSubdomain(lists, e);
    if InEvery(lists, e) { CommonEntriesSurvive(lists, e); }
    var l :| l in lists && l != {} && e !in l;
    var i :| 0 <= i < |lists| && lists[i] == l;
    assert !ListAllows(UnderDomain, lists[i], d) by { NotUnder(l, d, e); }
  }

  lemma NotUnder(l: set<string>, d: string, e: string)
    requires UnderDomain(d, e) && d != e && l != {} && d !in l && e !in l
    ensures !ListAllows(UnderDomain, l, d)
  {
    UnderParent(d, e);
    forall p | p in l ensures !UnderDomain(d, p) {
      if UnderDomain(d, p) { UnderParent(d, p); }
    }
  }

  /** Each listed domain that all lists allow is allowed by the fold. */
  ghost predicate ListedKept(lists: seq<set<string>>) {
    forall l, d ::
        l in lists && d in l && AllAllow(UnderDomain, lists, d) ==>
        ListAllows(UnderDomain, FoldLists(CommonEntries, lists), d)
  }

  /** ... and it allows exactly what every list allows iff no step clashes and no listed subdomain is lost. */
  lemma KernelDomainsFoldIff(lists: seq<set<string>>)
    ensures (forall d ::
        ListAllows(UnderDomain, FoldLists(CommonEntries, lists), d) <==> AllAllow(UnderDomain, lists, d))
       <==> NoClash(CommonEntries, lists) && ListedKept(lists)
  {
    KernelDomainsFoldSoundIff(lists);
    if NoClash(CommonEntries, lists) && ListedKept(lists) {
      forall d | AllAllow(UnderDomain, lists, d) ensures ListAllows(UnderDomain, FoldLists(CommonEntries, lists), d) {
        KernelDomainsFoldComplete(lists, d);
      }
    }
  }

  lemma KernelDomainsFoldComplete(lists: seq<set<string>>, d: string)
    requires NoClash(CommonEntries, lists) && ListedKept(lists) && AllAllow(UnderDomain, lists, d)
    ensures ListAllows(UnderDomain, FoldLists(CommonEntries, lists), d)
  {
    if l :| l in lists && l != {} {
      if forall m :: m in lists ==> d !in m {
        var e := Parent(d);
        forall m | m in lists && m != {} ensures e in m && UnderDomain(d, e) { UnderUnlisted(lists, m, d); }
        CommonEntriesSurvive(lists, e);
        assert l in lists;
      }
    } else {
      AllEmpty(lists);
    }
  }

  lemma UnderUnlisted(lists: seq<set<string>>, m: set<string>, d: string)
    requires AllAllow(UnderDomain, lists, d) && m in lists && m != {} && d !in m
    ensures Parent(d) in m && UnderDomain(d, Parent(d))
  {
    var i :| 0 <= i < |lists| && lists[i] == m;
    assert ListAllows(UnderDomain, lists[i], d);
    var p :| p in m && UnderDomain(d, p);
    UnderParent(d, p);
  }

  lemma {:induction false} AllEmpty(lists: seq<set<string>>)
    requires forall i :: 0 <= i < |lists| ==> lists[i] == {}
    ensures FoldLists(CommonEntries, lists) == {}
  {
    if |lists| >= 2 { AllEmpty(lists[..|lists| - 1]); }
  }
}
