/** The policy built from AGENTS.md and its two caches: a stat throttle of one second and a policy
    keyed by modification time (ystar/adapters/hook.py). */
module PolicyCache {
  import opened Common

  /** What one stat or read of the file finds at an instant. */
  datatype File = File(mtime: real, content: string)

  /** The outside world: the file at each path and instant, and the policy compiler. A missing file
      compiles to the fallback policy; a None result is a compiler that raised. */
  datatype World<!P> = World(file: (string, real) -> Option<File>, build: Option<File> -> Option<P>)

  /** One call: when it tests for the file, reads the clock, stats the file and builds, in that order. */
  datatype Call = Call(path: string, existsAt: real, now: real, statAt: real, buildAt: real)

  datatype MtimeEntry = MtimeEntry(lastCheck: real, mtime: real)
  datatype PolicyEntry<P> = PolicyEntry(policy: P, mtime: real)
  datatype Caches<P> = Caches(mtimes: map<string, MtimeEntry>, policies: map<string, PolicyEntry<P>>)

  /** The throttle answers when the last stat is under a second old and the cached policy carries its mtime. */
  predicate FastHit<P>(s: Caches<P>, c: Call) {
    && c.path in s.mtimes && c.now - s.mtimes[c.path].lastCheck < 1.0
    && c.path in s.policies && s.mtimes[c.path].mtime == s.policies[c.path].mtime
  }

  /** The new caches and the policy returned, or None when there is no file or something raised. */
  function Lookup<P>(s: Caches<P>, w: World<P>, c: Call): (Caches<P>, Option<P>) {
    if w.file(c.path, c.existsAt).None? then (s, None)
    else if FastHit(s, c) then (s, Some(s.policies[c.path].policy))
    else
      match w.file(c.path, c.statAt)
      case None => (s, None)
      case Some(f) =>
        var s1 := s.(mtimes := s.mtimes[c.path := MtimeEntry(c.now, f.mtime)]);
        if c.path in s.policies && s.policies[c.path].mtime == f.mtime then (s1, Some(s.policies[c.path].policy))
        else
          match w.build(w.file(c.path, c.buildAt))
          case None => (s1, None)
          case Some(p) => (s1.(policies := s.policies[c.path := PolicyEntry(p, f.mtime)]), Some(p))
  }

  class PolicyStore<P> {
    var mtimeCache: map<string, MtimeEntry>
    var policyCache: map<string, PolicyEntry<P>>

    function View(): Caches<P>
      reads this
    {
      Caches(mtimeCache, policyCache)
    }

    constructor ()
      ensures View() == Caches(map[], map[])
    {
      mtimeCache, policyCache := map[], map[];
    }

    method GetOrBuildPolicy(w: World<P>, c: Call) returns (policy: Option<P>)
      modifies this
      ensures (View(), policy) == Lookup(old(View()), w, c)
    {
      if w.file(c.path, c.existsAt).None? {
        return None;
      }
      if c.path in mtimeCache {
        var entry := mtimeCache[c.path];
        if c.now - entry.lastCheck < 1.0 {
          if c.path in policyCache {
            if entry.mtime == policyCache[c.path].mtime {
              return Some(policyCache[c.path].policy);
            }
          }
        }
      }
      var found := w.file(c.path, c.statAt);
      if found.None? {
        return None;
      }
      var currentMtime := found.value.mtime;
      mtimeCache := mtimeCache[c.path := MtimeEntry(c.now, currentMtime)];
      if c.path in policyCache && currentMtime == policyCache[c.path].mtime {
        return Some(policyCache[c.path].policy);
      }
      policy := w.build(w.file(c.path, c.buildAt));
      if policy.Some? {
        policyCache := policyCache[c.path := PolicyEntry(policy.value, currentMtime)];
      }
    }
  }

  // ---- runs -----------------------------------------------------------------------------

  /** Calls follow one another on a monotone clock. */
  ghost predicate InOrder(calls: seq<Call>, start: real) {
    calls == [] ||
    (start <= calls[0].existsAt <= calls[0].now <= calls[0].statAt <= calls[0].buildAt
        && InOrder(calls[1..], calls[0].buildAt))
  }

  ghost function After<P>(s: Caches<P>, w: World<P>, calls: seq<Call>): Caches<P>
    decreases calls
  {
    if calls == [] then s else After(Lookup(s, w, calls[0]).0, w, calls[1..])
  }

  /** The policy is what the file at instant u compiles to. */
  ghost predicate CurrentAt<P(!new)>(w: World<P>, path: string, p: P, u: real) {
    w.build(w.file(path, u)) == Some(p)
  }

  /** What a call returns was the policy of the file at an instant later than one second before the
      call's clock reading and no later than its end. */
  ghost predicate Fresh<P(!new)>(w: World<P>, c: Call, r: Option<P>) {
    r.Some? ==> exists u :: c.now - 1.0 < u <= c.buildAt && CurrentAt(w, c.path, r.value, u)
  }

  /** Every call of every run from empty caches returns a fresh policy. */
  ghost predicate AlwaysFresh<P(!new)>(w: World<P>) {
    forall calls, start, k: nat :: InOrder(calls, start) && k < |calls| ==>
      Fresh(w, calls[k], Lookup(After(Caches(map[], map[]), w, calls[..k]), w, calls[k]).1)
  }

  // ---- what it takes of the file system ------------------------------------------------------

  ghost predicate SameMtime<P(!new)>(w: World<P>, path: string, s: real, t: real) {
    w.file(path, s).Some? && w.file(path, t).Some? && w.file(path, s).value.mtime == w.file(path, t).value.mtime
  }

  /** The file, found at e, shows at t the mtime it showed at s, and compiled to something at b in
      between; a second or more passed since e. */
  ghost predicate Revisit<P(!new)>(w: World<P>, path: string, e: real, s: real, b: real, t: real) {
    e <= s <= b <= t && e <= t - 1.0 && w.file(path, e).Some? && SameMtime(w, path, s, t)
        && w.build(w.file(path, b)).Some?
  }

  ghost predicate CurrentWithinSecond<P(!new)>(w: World<P>, path: string, p: Option<P>, n: real) {
    p.Some? ==> exists u :: n - 1.0 < u <= n && CurrentAt(w, path, p.value, u)
  }

  /** An mtime seen again vouches for what the file compiled to since it was first seen: that is what
      the file compiles to within every second that ends less than a second after. */
  ghost predicate MtimesVouch<P(!new)>(w: World<P>) {
    forall path, e, s, b, t, n :: Revisit(w, path, e, s, b, t) && t <= n < t + 1.0 ==>
      CurrentWithinSecond(w, path, w.build(w.file(path, b)), n)
  }

  /** In particular file systems where the same mtime at two instants means the same content then
      and throughout: mtimes determine contents and are not reused after another content. */
  ghost predicate Honest<P(!new)>(w: World<P>) {
    forall path, s, b, t ::
        s <= b <= t && SameMtime(w, path, s, t) ==> w.file(path, b) == w.file(path, s) == w.file(path, t)
  }

  lemma HonestMtimesVouch<P(!new)>(w: World<P>)
    requires Honest(w)
    ensures MtimesVouch(w)
  {
    forall path, e, s, b, t, n | Revisit(w, path, e, s, b, t) && t <= n < t + 1.0
      ensures CurrentWithinSecond(w, path, w.build(w.file(path, b)), n)
    {
      assert SameMtime(w, path, s, t);
      assert CurrentAt(w, path, w.build(w.file(path, b)).value, t);
    }
  }

  // ---- enough: the invariant --------------------------------------------------------------------

  /** The entry was compiled at b, its mtime read at s, in a call that found the file at e. */
  ghost predicate BuiltAt<P(!new)>(w: World<P>, path: string, p: PolicyEntry<P>, e: real, s: real, b: real) {
    && e <= s <= b && w.file(path, e).Some? && w.build(w.file(path, b)) == Some(p.policy)
    && w.file(path, s).Some? && w.file(path, s).value.mtime == p.mtime
  }

  /** The throttle is still the building call's, or a later stat's, a second or more after e. */
  ghost predicate Throttle<P(!new)>(w: World<P>, path: string, m: MtimeEntry, p: PolicyEntry<P>, e: real, s: real,
      b: real, now: real) {
    || (e <= m.lastCheck <= b && m.mtime == p.mtime)
    || (e + 1.0 <= m.lastCheck && (m.mtime == p.mtime ==>
        exists t :: m.lastCheck <= t <= now && b <= t && SameMtime(w, path, s, t)))
  }

  ghost predicate EntryInv<P(!new)>(c: Caches<P>, w: World<P>, path: string, now: real) {
    path in c.policies ==>
      && path in c.mtimes && c.mtimes[path].lastCheck <= now
      && exists e, s, b ::
          b <= now && BuiltAt(w, path, c.policies[path], e, s, b)
          && Throttle(w, path, c.mtimes[path], c.policies[path], e, s, b, now)
  }

  ghost predicate Inv<P(!new)>(c: Caches<P>, w: World<P>, now: real) {
    forall path :: EntryInv(c, w, path, now)
  }

  lemma FastIsFresh<P(!new)>(s: Caches<P>, w: World<P>, c: Call, start: real)
    requires MtimesVouch(w) && EntryInv(s, w, c.path, start) && InOrder([c], start) && FastHit(s, c)
    ensures Fresh(w, c, Some(s.policies[c.path].policy))
  {
    var m, p := s.mtimes[c.path], s.policies[c.path];
    var e, st, b :| b <= start && BuiltAt(w, c.path, p, e, st, b) && Throttle(w, c.path, m, p, e, st, b, start);
    if e <= m.lastCheck <= b {
      assert CurrentAt(w, c.path, p.policy, b);
    } else {
      var t :| m.lastCheck <= t <= start && b <= t && SameMtime(w, c.path, st, t);
      assert Revisit(w, c.path, e, st, b, t);
      assert CurrentWithinSecond(w, c.path, Some(p.policy), c.now);
    }
  }

  /** A slow lookup that meets the cached mtime again: the entry stays, and its policy is fresh. */
  lemma SlowHit<P(!new)>(s: Caches<P>, w: World<P>, c: Call, start: real)
    requires MtimesVouch(w) && EntryInv(s, w, c.path, start) && InOrder([c], start) && !FastHit(s, c)
    requires c.path in s.policies && w.file(c.path, c.statAt).Some?
        && w.file(c.path, c.statAt).value.mtime == s.policies[c.path].mtime
    ensures Fresh(w, c, Some(s.policies[c.path].policy))
  {
    var m, p := s.mtimes[c.path], s.policies[c.path];
    var e, st, b :| b <= start && BuiltAt(w, c.path, p, e, st, b) && Throttle(w, c.path, m, p, e, st, b, start);
    assert Revisit(w, c.path, e, st, b, c.statAt);
    assert CurrentWithinSecond(w, c.path, Some(p.policy), c.statAt);
  }

  lemma ReturnsFresh<P(!new)>(s: Caches<P>, w: World<P>, c: Call, start: real)
    requires MtimesVouch(w) && EntryInv(s, w, c.path, start) && InOrder([c], start)
    ensures Fresh(w, c, Lookup(s, w, c).1)
  {
    var r := Lookup(s, w, c).1;
    if r.Some? {
      if FastHit(s, c) {
        FastIsFresh(s, w, c, start);
      } else if c.path in s.policies && w.file(c.path, c.statAt).value.mtime == s.policies[c.path].mtime {
        SlowHit(s, w, c, start);
      } else {
        assert CurrentAt(w, c.path, r.value, c.buildAt);
      }
    }
  }

  /** An entry the call leaves alone is described as before, a second after its building call. */
  lemma EntryStays<P(!new)>(s: Caches<P>, w: World<P>, c: Call, start: real, m: MtimeEntry)
    requires EntryInv(s, w, c.path, start) && InOrder([c], start) && c.path in s.policies
    requires m == s.mtimes[c.path]
             || (!FastHit(s, c) && w.file(c.path, c.statAt).Some?
                 && m == MtimeEntry(c.now, w.file(c.path, c.statAt).value.mtime))
    ensures exists e, st, b :: b <= c.buildAt && BuiltAt(w, c.path, s.policies[c.path], e, st, b)
                            && Throttle(w, c.path, m, s.policies[c.path], e, st, b, c.buildAt)
  {
    var p := s.policies[c.path];
    var e, st, b :| b <= start && BuiltAt(w, c.path, p, e, st, b)
        && Throttle(w, c.path, s.mtimes[c.path], p, e, st, b, start);
    if m.mtime == p.mtime && m != s.mtimes[c.path] { assert SameMtime(w, c.path, st, c.statAt); }
    assert Throttle(w, c.path, m, p, e, st, b, c.buildAt);
  }

  lemma KeepEntry<P(!new)>(s: Caches<P>, w: World<P>, c: Call, start: real)
    requires EntryInv(s, w, c.path, start) && InOrder([c], start)
    ensures EntryInv(Lookup(s, w, c).0, w, c.path, c.buildAt)
  {
    var t := Lookup(s, w, c).0;
    if c.path in t.policies {
      if t.policies == s.policies {
        EntryStays(s, w, c, start, t.mtimes[c.path]);
      } else {
        assert BuiltAt(w, c.path, t.policies[c.path], c.existsAt, c.statAt, c.buildAt);
        assert Throttle(w, c.path, t.mtimes[c.path], t.policies[c.path], c.existsAt, c.statAt, c.buildAt, c.buildAt);
      }
    }
  }

  lemma KeepOthers<P(!new)>(s: Caches<P>, w: World<P>, c: Call, start: real, path: string)
    requires EntryInv(s, w, path, start) && InOrder([c], start) && path != c.path
    ensures EntryInv(Lookup(s, w, c).0, w, path, c.buildAt)
  {
    if path in s.policies {
      var m, p := s.mtimes[path], s.policies[path];
      var e, st, b :| b <= start && BuiltAt(w, path, p, e, st, b) && Throttle(w, path, m, p, e, st, b, start);
      assert Throttle(w, path, m, p, e, st, b, c.buildAt);
    }
  }

  lemma KeepInv<P(!new)>(s: Caches<P>, w: World<P>, c: Call, start: real)
    requires Inv(s, w, start) && InOrder([c], start)
    ensures Inv(Lookup(s, w, c).0, w, c.buildAt)
  {
    forall path ensures EntryInv(Lookup(s, w, c).0, w, path, c.buildAt) {
      assert EntryInv(s, w, path, start);
      if path == c.path { KeepEntry(s, w, c, start); } else { KeepOthers(s, w, c, start, path); }
    }
  }

  lemma {:induction false} RunFresh<P(!new)>(s: Caches<P>, w: World<P>, calls: seq<Call>, start: real, k: nat)
    requires MtimesVouch(w) && Inv(s, w, start) && InOrder(calls, start) && k < |calls|
    ensures Fresh(w, calls[k], Lookup(After(s, w, calls[..k]), w, calls[k]).1)
    decreases calls
  {
    assert InOrder([calls[0]], start) by { assert [calls[0]][1..] == []; }
    assert EntryInv(s, w, calls[0].path, start);
    if k == 0 {
      ReturnsFresh(s, w, calls[0], start);
      assert calls[..0] == [];
    } else {
      KeepInv(s, w, calls[0], start);
      RunFresh(Lookup(s, w, calls[0]).0, w, calls[1..], calls[0].buildAt, k - 1);
      assert calls[1..][..k - 1] == calls[..k][1..];
    }
  }

  // ---- necessary: three calls -----------------------------------------------------------------------

  /** A build over [s, b], a stat at t that meets the old mtime, and a throttled call at n. */
  ghost function Probe(path: string, e: real, s: real, b: real, t: real, n: real): seq<Call> {
    [Call(path, e, e, s, b), Call(path, t, t, t, t), Call(path, t, n, n, n)]
  }

  /** The third call returns what the first one compiled, unless that was nothing. */
  lemma ProbeReturnsOldPolicy<P(!new)>(w: World<P>, path: string, e: real, s: real, b: real, t: real, n: real)
    requires Revisit(w, path, e, s, b, t) && t <= n < t + 1.0
    ensures var calls := Probe(path, e, s, b, t, n);
            InOrder(calls, e) && Lookup(After(Caches(map[], map[]), w, calls[..2]), w, calls[2]).1
                == w.build(w.file(path, b))
  {
    var calls := Probe(path, e, s, b, t, n);
    assert InOrder(calls, e) by {
      assert InOrder([calls[2]], t) by { assert [calls[2]][1..] == []; }
      assert InOrder([calls[1], calls[2]], b) by { assert [calls[1], calls[2]][1..] == [calls[2]]; }
      assert calls[1..] == [calls[1], calls[2]];
    }
    assert calls[..2] == [calls[0], calls[1]] && calls[..2][1..] == [calls[1]] && calls[..2][1..][1..] == [];
    var empty: Caches<P> := Caches(map[], map[]);
    var s1 := Lookup(empty, w, calls[0]).0;
    var s2 := Lookup(s1, w, calls[1]).0;
    assert After(empty, w, calls[..2]) == After(s1, w, [calls[1]]) == After(s2, w, []) == s2;
    assert SameMtime(w, path, s, t);
  }

  /** Whatever the calls, and whatever the edits between and during them: every policy the cached
      lookup returns is what the file compiled to less than a second before the call at the earliest,
      iff mtimes seen again vouch for what was compiled in between. */
  lemma FreshIffMtimesVouch<P(!new)>(w: World<P>)
    ensures AlwaysFresh(w) <==> MtimesVouch(w)
  {
    if MtimesVouch(w) {
      forall calls, start, k: nat | InOrder(calls, start) && k < |calls|
        ensures Fresh(w, calls[k], Lookup(After(Caches(map[], map[]), w, calls[..k]), w, calls[k]).1)
      {
        RunFresh(Caches(map[], map[]), w, calls, start, k);
      }
    }
    if AlwaysFresh(w) {
      forall path, e, s, b, t, n | Revisit(w, path, e, s, b, t) && t <= n < t + 1.0
        ensures CurrentWithinSecond(w, path, w.build(w.file(path, b)), n)
      {
        ProbeReturnsOldPolicy(w, path, e, s, b, t, n);
        var calls := Probe(path, e, s, b, t, n);
        assert Fresh(w, calls[2], Lookup(After(Caches(map[], map[]), w, calls[..2]), w, calls[2]).1);
      }
    }
  }

  // ---- when there is a policy at all --------------------------------------------------------------

  /** Whatever the caches hold, a call returns no policy iff the file was not found, or the throttle did not
      answer and either the stat failed or it met an mtime the cached policy does not carry and the compiler raised. */
  lemma NoPolicyIff<P(!new)>(s: Caches<P>, w: World<P>, c: Call)
    ensures Lookup(s, w, c).1 == None <==>
              || w.file(c.path, c.existsAt) == None
              || (!(&& c.path in s.mtimes && c.now - s.mtimes[c.path].lastCheck < 1.0
                    && c.path in s.policies && s.policies[c.path].mtime == s.mtimes[c.path].mtime)
                  && (|| w.file(c.path, c.statAt) == None
                      || ((c.path in s.policies ==> s.policies[c.path].mtime != w.file(c.path, c.statAt).value.mtime)
                          && w.build(w.file(c.path, c.buildAt)) == None)))
  {
  }

  /** What a call writes: the throttle gets its clock reading and the mtime exactly when it was not throttled and
      the stat found the file, even if the compiler then raises; the policy cache gets what was compiled
      exactly when something was; nothing else changes. */
  lemma CallWrites<P(!new)>(s: Caches<P>, w: World<P>, c: Call)
    ensures var t, mtime := Lookup(s, w, c).0, w.file(c.path, c.statAt);
            var statted := w.file(c.path, c.existsAt).Some? && !FastHit(s, c) && mtime.Some?;
            && t.mtimes == (if statted then s.mtimes[c.path := MtimeEntry(c.now, mtime.value.mtime)] else s.mtimes)
            && (t.policies != s.policies ==>
                  && statted && w.build(w.file(c.path, c.buildAt)).Some?
                  && t.policies == s.policies[c.path := PolicyEntry(w.build(w.file(c.path, c.buildAt)).value,
                      mtime.value.mtime)])
            && (statted && Lookup(s, w, c).1.Some? ==>
                  c.path in t.policies && t.policies[c.path] == PolicyEntry(Lookup(s, w, c).1.value, mtime.value.mtime))
  {
  }

  /** Over every run of calls and edits: when the file is there and compiles, each call returns a policy. */
  lemma PolicyAlwaysReturned<P(!new)>(w: World<P>, calls: seq<Call>, k: nat)
    requires k < |calls|
    requires w.file(calls[k].path, calls[k].existsAt).Some? && w.file(calls[k].path, calls[k].statAt).Some?
    requires w.build(w.file(calls[k].path, calls[k].buildAt)).Some?
    ensures Lookup(After(Caches(map[], map[]), w, calls[..k]), w, calls[k]).1.Some?
  {
    NoPolicyIff(After(Caches(map[], map[]), w, calls[..k]), w, calls[k]);
  }

  /** A call that meets an mtime its cached policy does not carry returns what the file compiles to now, and
      so does every throttled call after it: an edit that shows takes effect at the next stat. */
  lemma EditTakesEffect<P(!new)>(s: Caches<P>, w: World<P>, c: Call, next: Call)
    requires w.file(c.path, c.existsAt).Some? && w.file(c.path, c.statAt).Some?
    requires c.path in s.policies ==> s.policies[c.path].mtime != w.file(c.path, c.statAt).value.mtime
    requires c.path in s.mtimes ==> c.now - s.mtimes[c.path].lastCheck >= 1.0
    requires next.path == c.path && next.now - c.now < 1.0 && w.file(next.path, next.existsAt).Some?
    ensures Lookup(s, w, c).1 == w.build(w.file(c.path, c.buildAt))
    ensures Lookup(s, w, c).1.Some? ==> Lookup(Lookup(s, w, c).0, w, next) == (Lookup(s, w, c).0, Lookup(s, w, c).1)
  {
  }

  /** ... with the file of the example edited between two calls ten seconds apart. */
  ghost function Edited(path: string, t: real): Option<File> {
    if t < 5.0 then Some(File(1.0, "A")) else Some(File(2.0, "B"))
  }

  lemma EditIsRebuilt()
    ensures var w, c0, c1 := World(Edited, Text), Call("A", 0.0, 0.0, 0.0, 0.0), Call("A", 10.0, 10.0, 10.0, 10.0);
            && Lookup(Caches(map[], map[]), w, c0).1 == Some("A")
            && Lookup(Lookup(Caches(map[], map[]), w, c0).0, w, c1).1 == Some("B")
  {
  }

  // ---- what the caches save -----------------------------------------------------------------

  /** The same world with another compiler. */
  ghost predicate SameFiles<P(!new)>(w: World<P>, w': World<P>) {
    forall path, t :: w.file(path, t) == w'.file(path, t)
  }

  /** After a call that returned a policy, a call that finds the file with the mtime of that stat
      returns the same policy and never compiles: any other compiler would do. */
  lemma UnchangedFileIsNotRecompiled<P(!new)>(s: Caches<P>, w: World<P>, c1: Call, c2: Call, w': World<P>)
    requires c1.path == c2.path && !FastHit(s, c1) && Lookup(s, w, c1).1.Some?
    requires SameFiles(w, w') && w.file(c2.path, c2.existsAt).Some?
    requires SameMtime(w, c1.path, c1.statAt, c2.statAt)
    ensures Lookup(Lookup(s, w, c1).0, w', c2).1 == Lookup(s, w, c1).1
    ensures Lookup(Lookup(s, w, c1).0, w', c2).0.policies == Lookup(s, w, c1).0.policies
  {
  }

  /** Within the second after its clock reading the file is not even looked at, and nothing changes. */
  lemma ThrottledCallsOnlyRead<P(!new)>(s: Caches<P>, w: World<P>, c1: Call, c2: Call, w': World<P>)
    requires c1.path == c2.path && !FastHit(s, c1) && Lookup(s, w, c1).1.Some? && c2.now - c1.now < 1.0
    requires w'.file(c2.path, c2.existsAt).Some?
    ensures Lookup(Lookup(s, w, c1).0, w', c2) == (Lookup(s, w, c1).0, Lookup(s, w, c1).1)
  {
  }

  // ---- why mtimes may not be reused ----------------------------------------------------------

  /** A file that is edited between the stat and the build of one call and then put back, mtime and all. */
  ghost function Flicker(path: string, t: real): Option<File> {
    if 1.0 < t < 3.0 then Some(File(20.0, "new")) else Some(File(10.0, "old"))
  }

  ghost function Text(f: Option<File>): Option<string> {
    if f.Some? then Some(f.value.content) else Some("fallback")
  }

  /** There mtimes do determine contents, yet the cache goes on serving the short-lived version. */
  lemma ReusedMtimeServesStalePolicy()
    ensures var w := World(Flicker, Text);
            && (forall s, t :: SameMtime(w, "A", s, t) ==> w.file("A", s) == w.file("A", t))
            && var calls := [Call("A", 0.0, 0.0, 1.0, 2.0), Call("A", 9.0, 9.0, 9.0, 9.0)];
               && InOrder(calls, 0.0)
               && Lookup(After(Caches(map[], map[]), w, calls[..1]), w, calls[1]).1 == Some("new")
               && forall u :: 8.0 < u <= 9.0 ==> !CurrentAt(w, "A", "new", u)
  {
  }
}
