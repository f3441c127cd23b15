/** The lineage cache keeps, for every registered child, the root its chain of sessions ends in:
    a path-compressed walk (ystar/adapters/omission_adapter.py). */
module Lineage {
  import opened Common
  import opened OmissionRouting
  import opened RoutingTheorems

  /** child -> the session it was last registered under. */
  type Links = map<string, string>

  /** Follow links from x for at most n steps; None if the walk is not over by then. */
  function Walk(links: Links, x: string, n: nat): Option<string>
    decreases n
  {
    if x !in links then Some(x)
    else if n == 0 then None
    else Walk(links, links[x], n - 1)
  }

  ghost predicate WalkEnds(links: Links, x: string, root: string) {
    exists n: nat :: Walk(links, x, n) == Some(root)
  }

  /** The cache answers like the walk, everywhere, and the walk always ends. */
  ghost predicate Agrees(roots: map<string, string>, links: Links) {
    && roots.Keys == links.Keys
    && forall x :: WalkEnds(links, x, Root(roots, x))
  }

  /** x leads to y in exactly n links. */
  predicate Leads(links: Links, x: string, y: string, n: nat)
    decreases n
  {
    if n == 0 then x == y else x in links && Leads(links, links[x], y, n - 1)
  }

  ghost predicate Reaches(links: Links, x: string, y: string) {
    exists n: nat :: Leads(links, x, y, n)
  }

  /** Some registered child hangs directly below c. */
  ghost predicate HasServed(links: Links, c: string) {
    exists x :: x in links && links[x] == c
  }

  // ---- walks -----------------------------------------------------------------------

  lemma {:induction false} WalkLonger(links: Links, x: string, n: nat, m: nat)
    requires Walk(links, x, n).Some? && n <= m
    ensures Walk(links, x, m) == Walk(links, x, n)
    decreases n
  {
    if x in links { WalkLonger(links, links[x], n - 1, m - 1); }
  }

  lemma WalkUnique(links: Links, x: string, r: string, r': string)
    requires WalkEnds(links, x, r) && WalkEnds(links, x, r')
    ensures r == r'
  {
    var n: nat :| Walk(links, x, n) == Some(r);
    var m: nat :| Walk(links, x, m) == Some(r');
    if n <= m { WalkLonger(links, x, n, m); } else { WalkLonger(links, x, m, n); }
  }

  lemma {:induction false} WalkStopsOutside(links: Links, x: string, n: nat)
    requires Walk(links, x, n).Some?
    ensures Walk(links, x, n).value !in links
    decreases n
  {
    if x in links { WalkStopsOutside(links, links[x], n - 1); }
  }

  /** Cached roots are fixed points: no root is registered below anything. */
  lemma RootsAreFixedPoints(roots: map<string, string>, links: Links, x: string)
    requires Agrees(roots, links)
    ensures Root(roots, x) !in links && Root(roots, Root(roots, x)) == Root(roots, x)
  {
    assert WalkEnds(links, x, Root(roots, x));
    var n: nat :| Walk(links, x, n) == Some(Root(roots, x));
    WalkStopsOutside(links, x, n);
  }

  lemma RootOfLinked(roots: map<string, string>, links: Links, x: string)
    requires Agrees(roots, links) && x in links
    ensures Root(roots, x) == Root(roots, links[x])
  {
    assert WalkEnds(links, x, Root(roots, x));
    var n: nat :| Walk(links, x, n) == Some(Root(roots, x));
    assert Walk(links, links[x], n - 1) == Some(Root(roots, x));
    assert WalkEnds(links, links[x], Root(roots, links[x]));
    WalkUnique(links, links[x], Root(roots, x), Root(roots, links[x]));
  }

  // ---- one registration -----------------------------------------------------------------

  /** What a registration does to the cache and to the links. */
  function Register(roots: map<string, string>, c: string, s: string): map<string, string> {
    roots[c := Root(roots, s)]
  }

  /** A walk that never meets c is not affected by re-linking c. */
  lemma {:induction false} WalkAvoiding(links: Links, x: string, c: string, s: string, n: nat)
    requires Walk(links, x, n).Some? && !Reaches(links, x, c)
    ensures Walk(links[c := s], x, n) == Walk(links, x, n)
    decreases n
  {
    assert Leads(links, x, x, 0);
    if x in links {
      if Reaches(links, links[x], c) {
        var k: nat :| Leads(links, links[x], c, k);
        assert Leads(links, x, c, k + 1);
      }
      WalkAvoiding(links, links[x], c, s, n - 1);
    }
  }

  /** Every old walk becomes a new one that ends where the new cache says. */
  lemma {:induction false} WalkAfter(roots: map<string, string>, links: Links, c: string, s: string, x: string, n: nat)
    requires Agrees(roots, links) && Walk(links, x, n).Some? && !Reaches(links, s, c)
    requires HasServed(links, c) ==> Root(roots, c) == Root(roots, s)
    ensures WalkEnds(links[c := s], x, Root(Register(roots, c, s), x))
    decreases n
  {
    var links' := links[c := s];
    if x == c {
      assert WalkEnds(links, s, Root(roots, s));
      var m: nat :| Walk(links, s, m) == Some(Root(roots, s));
      WalkAvoiding(links, s, c, s, m);
      assert Walk(links', c, m + 1) == Some(Root(roots, s));
    } else if x in links {
      WalkAfter(roots, links, c, s, links[x], n - 1);
      var r := Root(Register(roots, c, s), links[x]);
      var m: nat :| Walk(links', links[x], m) == Some(r);
      assert Walk(links', x, m + 1) == Some(r);
      RootOfLinked(roots, links, x);
    } else {
      assert Walk(links', x, 0) == Some(x);
    }
  }

  /** A walk that returns to where it started never ends. */
  lemma {:induction false} CycleNeverEnds(links: Links, c: string, k: nat, n: nat)
    requires k > 0 && Leads(links, c, c, k)
    ensures Walk(links, c, n).None?
    decreases n
  {
    LeadsShift(links, c, c, k, k);
    if n >= k {
      LeadsShift(links, c, c, k, n);
      CycleNeverEnds(links, c, k, n - k);
    } else if Walk(links, c, n).Some? {
      WalkLonger(links, c, n, k);
    }
  }

  lemma {:induction false} LeadsShift(links: Links, x: string, y: string, k: nat, n: nat)
    requires Leads(links, x, y, k) && n >= k
    ensures Walk(links, x, n) == Walk(links, y, n - k)
    decreases k
  {
    if k > 0 { LeadsShift(links, links[x], y, k - 1, n - 1); }
  }

  /** If s led to c, re-linking c under s closes a cycle. */
  lemma {:induction false} LeadsAfter(links: Links, x: string, c: string, s: string, k: nat) returns (k': nat)
    requires Leads(links, x, c, k)
    ensures k' <= k && Leads(links[c := s], x, c, k')
    decreases k
  {
    if x == c {
      k' := 0;
    } else {
      k' := LeadsAfter(links, links[x], c, s, k - 1);
      k' := k' + 1;
    }
  }

  /** Registering c under s keeps the cache in agreement with the walk iff s does not already lead
      to c and, when something hangs below c, c's root stays what it was. */
  lemma RegisterAgreesIff(roots: map<string, string>, links: Links, c: string, s: string)
    requires Agrees(roots, links)
    ensures Agrees(Register(roots, c, s), links[c := s]) <==>
              !Reaches(links, s, c) && (HasServed(links, c) ==> Root(roots, c) == Root(roots, s))
  {
    var roots', links' := Register(roots, c, s), links[c := s];
    if !Reaches(links, s, c) && (HasServed(links, c) ==> Root(roots, c) == Root(roots, s)) {
      forall x ensures WalkEnds(links', x, Root(roots', x)) {
        assert WalkEnds(links, x, Root(roots, x));
        var n: nat :| Walk(links, x, n) == Some(Root(roots, x));
        WalkAfter(roots, links, c, s, x, n);
      }
    } else if Reaches(links, s, c) {
      CycleBreaksAgreement(roots, links, c, s);
    } else {
      OldChildrenDisagree(roots, links, c, s);
    }
  }

  lemma CycleBreaksAgreement(roots: map<string, string>, links: Links, c: string, s: string)
    requires Reaches(links, s, c)
    ensures !Agrees(Register(roots, c, s), links[c := s])
  {
    var links' := links[c := s];
    var k: nat :| Leads(links, s, c, k);
    var k' := LeadsAfter(links, s, c, s, k);
    assert Leads(links', c, c, k' + 1);
    forall n: nat ensures Walk(links', c, n).None? { CycleNeverEnds(links', c, k' + 1, n); }
    assert !WalkEnds(links', c, Root(Register(roots, c, s), c));
  }

  lemma OldChildrenDisagree(roots: map<string, string>, links: Links, c: string, s: string)
    requires Agrees(roots, links) && !Reaches(links, s, c)
    requires HasServed(links, c) && Root(roots, c) != Root(roots, s)
    ensures !Agrees(Register(roots, c, s), links[c := s])
  {
    var roots', links' := Register(roots, c, s), links[c := s];
    var x :| x in links && links[x] == c;
    RootOfLinked(roots, links, x);
    if x == c {
      assert WalkEnds(links, c, Root(roots, c));
      var n: nat :| Walk(links, c, n) == Some(Root(roots, c));
      assert Leads(links, c, c, 1) by { assert Leads(links, c, c, 0); }
      CycleNeverEnds(links, c, 1, n);
    }
    assert Agrees(roots', links') ==> Root(roots', x) == Root(roots', c) by {
      if Agrees(roots', links') { RootOfLinked(roots', links', x); }
    }
  }

  // ---- whole runs -----------------------------------------------------------------------

  datatype Registration = Registration(child: string, session: string)

  function LinksAfter(regs: seq<Registration>): Links {
    if regs == [] then map[] else LinksAfter(regs[..|regs| - 1])[regs[|regs| - 1].child := regs[|regs| - 1].session]
  }

  function RootsAfter(regs: seq<Registration>): map<string, string> {
    if regs == [] then map[]
    else
      var last := regs[|regs| - 1];
      Register(RootsAfter(regs[..|regs| - 1]), last.child, last.session)
  }

  /** Every id is registered once, and before it serves as a session (its own included). */
  ghost predicate RegisteredFirst(regs: seq<Registration>) {
    && (forall i, j :: 0 <= i < j < |regs| ==> regs[i].child != regs[j].child)
    && (forall i, j :: 0 <= i <= j < |regs| ==> regs[i].session != regs[j].child)
  }

  ghost predicate Registered(regs: seq<Registration>, x: string, s: string) {
    exists i :: 0 <= i < |regs| && regs[i].child == x && regs[i].session == s
  }

  lemma {:induction false} LinksOf(regs: seq<Registration>)
    ensures forall x :: x in LinksAfter(regs) ==> Registered(regs, x, LinksAfter(regs)[x])
  {
    if regs != [] {
      var init := regs[..|regs| - 1];
      LinksOf(init);
      forall x | x in LinksAfter(regs) ensures Registered(regs, x, LinksAfter(regs)[x]) {
        if x == regs[|regs| - 1].child {
          assert regs[|regs| - 1].session == LinksAfter(regs)[x];
        } else {
          assert Registered(init, x, LinksAfter(init)[x]);
          var i :| 0 <= i < |init| && init[i].child == x && init[i].session == LinksAfter(init)[x];
          assert regs[i] == init[i];
        }
      }
    }
  }

  lemma {:induction false} LeadsOnlyViaServed(links: Links, x: string, c: string, n: nat)
    requires Leads(links, x, c, n) && x != c
    ensures HasServed(links, c)
    decreases n
  {
    if links[x] != c { LeadsOnlyViaServed(links, links[x], c, n - 1); }
  }

  /** In every run where each id is registered once and before it serves as a session, the cache
      agrees with walking the links to the top, and the walk ends. */
  lemma {:induction false} DisciplinedRunsAgree(regs: seq<Registration>)
    requires RegisteredFirst(regs)
    ensures Agrees(RootsAfter(regs), LinksAfter(regs))
  {
    if regs == [] {
      forall x ensures WalkEnds(LinksAfter(regs), x, Root(RootsAfter(regs), x)) {
        assert Walk(LinksAfter(regs), x, 0) == Some(x);
      }
    } else {
      var init := regs[..|regs| - 1];
      var r := regs[|regs| - 1];
      assert forall i :: 0 <= i < |init| ==> init[i] == regs[i];
      DisciplinedRunsAgree(init);
      LinksOf(init);
      var links := LinksAfter(init);
      forall x | x in links ensures links[x] != r.child {
        assert Registered(init, x, links[x]);
        var i :| 0 <= i < |init| && init[i].child == x && init[i].session == links[x];
        assert regs[i].session != regs[|init|].child;
      }
      if Reaches(links, r.session, r.child) {
        var n: nat :| Leads(links, r.session, r.child, n);
        LeadsOnlyViaServed(links, r.session, r.child, n);
      }
      RegisterAgreesIff(RootsAfter(init), links, r.child, r.session);
    }
  }

  // ---- the adapter's events as registrations ------------------------------------------------

  /** The registrations one ingested event makes. */
  function Registrations(raw: Raw): seq<Registration> {
    var s := SessionOf(raw);
    if TypeOf(raw) == "subagent_spawn" && SpawnChild(raw) != "" then
      var agent := Or(raw.childAgentId, "");
      [Registration(SpawnChild(raw), s)]
          + (if agent != "" && agent != SpawnChild(raw) then [Registration(agent, s)] else [])
    else if TypeOf(raw) == "handoff" && NamedChild(raw) != "" then [Registration(NamedChild(raw), s)]
    else []
  }

  lemma RootsSnoc(regs: seq<Registration>, r: Registration)
    ensures RootsAfter(regs + [r]) == Register(RootsAfter(regs), r.child, r.session)
  {
  }

  function AllRegistrations(events: seq<Raw>): seq<Registration> {
    if events == [] then [] else AllRegistrations(events[..|events| - 1]) + Registrations(events[|events| - 1])
  }

  lemma IngestRegisters(c: Caches, raw: Raw)
    requires forall r :: r in Registrations(raw) ==> r.child != r.session
    ensures var added, roots := Registrations(raw), Ingest(c, raw).0.rootOf;
            if |added| == 0 then roots == c.rootOf
            else
              var first := Register(c.rootOf, added[0].child, added[0].session);
              if |added| == 1 then roots == first
              else |added| == 2 && roots == Register(first, added[1].child, added[1].session)
  {
    var added := Registrations(raw);
    if |added| == 2 { assert added[0] in added; }
  }

  lemma OneEventRegisters(c: Caches, raw: Raw, regs: seq<Registration>)
    requires c.rootOf == RootsAfter(regs)
    requires forall r :: r in Registrations(raw) ==> r.child != r.session
    ensures Ingest(c, raw).0.rootOf == RootsAfter(regs + Registrations(raw))
  {
    IngestRegisters(c, raw);
    var added := Registrations(raw);
    if |added| == 0 {
      assert regs + added == regs;
    } else {
      RootsSnoc(regs, added[0]);
      if |added| == 1 {
        assert regs + added == regs + [added[0]];
      } else {
        RootsSnoc(regs + [added[0]], added[1]);
        assert regs + added == (regs + [added[0]]) + [added[1]];
      }
    }
  }

  /** The adapter's lineage cache is the one its events' registrations build, as long as no child is
      its own session. */
  lemma {:induction false} LineageIsRegistrations(events: seq<Raw>)
    requires forall r :: r in AllRegistrations(events) ==> r.child != r.session
    ensures After(EMPTY, events).rootOf == RootsAfter(AllRegistrations(events))
  {
    if events != [] {
      var init := events[..|events| - 1];
      var raw := events[|events| - 1];
      assert AllRegistrations(events) == AllRegistrations(init) + Registrations(raw);
      LineageIsRegistrations(init);
      OneEventRegisters(After(EMPTY, init), raw, AllRegistrations(init));
    }
  }

  /** For the adapter itself: if its spawns and handoffs register each id once and before it serves as
      a session, the cached root of every id is the top of its chain of sessions. */
  lemma AdapterRootsAreTops(events: seq<Raw>)
    requires RegisteredFirst(AllRegistrations(events))
    ensures Agrees(After(EMPTY, events).rootOf, LinksAfter(AllRegistrations(events)))
  {
    var regs := AllRegistrations(events);
    forall r | r in regs ensures r.child != r.session {
      var i :| 0 <= i < |regs| && regs[i] == r;
    }
    LineageIsRegistrations(events);
    DisciplinedRunsAgree(regs);
  }
}
