/** Exactly when a save and a reload change no answer of a capability check (ystar/capabilities.py). */
module ReloadAnswers {
  import opened Common
  import opened Capabilities

  predicate Everything(scope: string) { scope == "" || scope == "*" }

  /** The directory a grant speaks of, or the scope itself. */
  function Stem(scope: string): string {
    if EndsWith(scope, "/*") then scope[..|scope| - 2] else scope
  }

  predicate Below(path: string, dir: string) { path == dir || StartsWith(path, dir + "/") }

  /** The grant g covers all that the grant t covers: a comparison of the two strings. */
  predicate Covers(g: string, t: string) {
    var (actionG, scopeG) := Cut(g);
    var (actionT, scopeT) := Cut(t);
    actionG == actionT &&
    (|| Everything(scopeG) || scopeG == scopeT
     || (EndsWith(scopeG, "/*") && !Everything(scopeT) && Below(Stem(scopeT), Stem(scopeG))))
  }

  lemma BelowTransitive(p: string, q: string, r: string)
    requires Below(p, q) && Below(q, r)
    ensures Below(p, r)
  {
  }

  lemma CoversMeans(g: string, t: string, requested: string)
    requires Covers(g, t) && MatchesOne(requested, t)
    ensures MatchesOne(requested, g)
  {
    var (_, scopeG) := Cut(g);
    var (_, scopeT) := Cut(t);
    var (_, scope) := Cut(requested);
    if EndsWith(scopeG, "/*") && !Everything(scopeG) && scopeG != scopeT {
      assert EndsWith(scopeT, "/*") ==> scopeT == Stem(scopeT) + "/*" && StartsWith(scopeT, Stem(scopeT) + "/");
      assert Below(scope, Stem(scopeT));
      BelowTransitive(scope, Stem(scopeT), Stem(scopeG));
    }
  }

  /** A request t covers that tells it from every shorter grant. */
  function Probe(t: string, n: nat): string {
    var (action, scope) := Cut(t);
    var long := seq(n, _ => 'a');
    action + ":" + (if Everything(scope) then long else if EndsWith(scope, "/*") then Stem(scope) + "/" + long
        else scope)
  }

  lemma ProbeIsGiven(t: string, n: nat)
    requires n > 0
    ensures Normal(AsGiven, Probe(t, n)) == Probe(t, n) && MatchesOne(Probe(t, n), t)
  {
    CutHead(t);
    var (action, scope) := Cut(t);
    CutAtFirstColon(action, Probe(t, n)[|action| + 1..]);
    assert Probe(t, n) == action + ":" + Probe(t, n)[|action| + 1..];
    if EndsWith(scope, "/*") && !Everything(scope) {
      assert StartsWith(Probe(t, n)[|action| + 1..], Stem(scope) + "/");
    }
  }

  /** Whoever matches the probe covers the grant. */
  lemma ProbeTells(g: string, t: string, n: nat)
    requires n > |g| && MatchesOne(Probe(t, n), g)
    ensures Covers(g, t)
  {
    CutHead(t);
    CutLength(g);
    var (action, scope) := Cut(t);
    var r := Probe(t, n)[|action| + 1..];
    assert Probe(t, n) == action + ":" + r;
    CutAtFirstColon(action, r);
    var (_, scopeG) := Cut(g);
    if EndsWith(scopeG, "/*") && !Everything(scopeG) && scopeG != scope {
      var dir := Stem(scopeG);
      LongIsBelowNothing(n, dir);
      if !Everything(scope) && EndsWith(scope, "/*") {
        PrefixOfStem(Stem(scope), dir, n);
      }
    }
  }

  lemma LongIsBelowNothing(n: nat, dir: string)
    requires |dir| < n
    ensures !Below(seq(n, _ => 'a'), dir)
  {
    assert (dir + "/")[|dir|] == '/';
  }

  lemma PrefixOfStem(stem: string, dir: string, n: nat)
    requires StartsWith(stem + "/" + seq(n, _ => 'a'), dir + "/")
    ensures Below(stem, dir)
  {
    var r := stem + "/" + seq(n, _ => 'a');
    assert (dir + "/")[|dir|] == '/' && r[|dir|] == '/';
    assert |dir| <= |stem|;
    assert dir == r[..|dir|] == stem[..|dir|];
    if |dir| < |stem| {
      assert dir + "/" == r[..|dir| + 1] == stem[..|dir| + 1];
    }
  }

  lemma {:induction false} CutLength(s: string)
    ensures |Cut(s).0| + |Cut(s).1| <= |s|
  {
    if s != "" && s[0] != ':' { CutLength(s[1..]); }
  }

  // ---- the answers --------------------------------------------------------------------------------

  function Reloaded(s: Store, T: real): Store { s.(tokens := Prune(s.tokens, T)) }

  /** A held token that check honours at `now` and a load at T drops. */
  ghost predicate Dropped(s: Store, T: real, now: real, t: Token) {
    Holds(s.tokens, t) && Live(t, now) && !Survives(t, T)
  }

  /** Something else the agent keeps covers the token. */
  ghost predicate Backed(s: Store, T: real, now: real, t: Token) {
    || (t.agent in s.persistent && exists i ::
        0 <= i < |s.persistent[t.agent]| && Covers(s.persistent[t.agent][i], t.capability))
    || (exists x ::
        Holds(s.tokens, x) && Live(x, now) && Survives(x, T) && x.agent == t.agent
        && Covers(x.capability, t.capability))
  }

  ghost predicate SameAnswers(s: Store, s': Store, normalize: string -> string, now: real) {
    forall agent, capability ::
        Allowed(s, normalize, agent, capability, now) == Allowed(s', normalize, agent, capability, now)
  }

  /** Reloading takes nothing but tokens. */
  lemma ReloadOnlyNarrows(s: Store, T: real, normalize: string -> string, agent: string, capability: string, now: real)
    ensures Allowed(Reloaded(s, T), normalize, agent, capability, now) ==> Allowed(s, normalize, agent, capability, now)
  {
    AllowedByHeld(s, normalize, agent, capability, now);
    AllowedByHeld(Reloaded(s, T), normalize, agent, capability, now);
    forall t ensures Holds(Prune(s.tokens, T), t) <==> Holds(s.tokens, t) && Survives(t, T) {
      PruneHolds(s.tokens, T, t);
    }
  }

  lemma BackedKeepsAnswer(s: Store, T: real, normalize: string -> string, agent: string, capability: string, now: real)
    requires forall t :: Dropped(s, T, now, t) ==> Backed(s, T, now, t)
    requires Allowed(s, normalize, agent, capability, now)
    ensures Allowed(Reloaded(s, T), normalize, agent, capability, now)
  {
    var requested := Normal(normalize, capability);
    AllowedByHeld(s, normalize, agent, capability, now);
    AllowedByHeld(Reloaded(s, T), normalize, agent, capability, now);
    if !PersistentAllows(s, agent, requested) {
      var t :| Holds(s.tokens, t) && TokenAllows(t, agent, requested, now);
      PruneHolds(s.tokens, T, t);
      if !Survives(t, T) {
        assert Dropped(s, T, now, t);
        if x :|
          && Holds(s.tokens, x) && Live(x, now) && Survives(x, T)
          && x.agent == t.agent && Covers(x.capability, t.capability)
        {
          PruneHolds(s.tokens, T, x);
          CoversMeans(x.capability, t.capability, requested);
        } else {
          var i :| 0 <= i < |s.persistent[t.agent]| && Covers(s.persistent[t.agent][i], t.capability);
          CoversMeans(s.persistent[t.agent][i], t.capability, requested);
        }
      }
    }
  }

  lemma LongerThanTokens(tokens: seq<Token>) returns (n: nat)
    ensures forall t :: Holds(tokens, t) ==> |t.capability| < n
  {
    n := 0;
    for i := 0 to |tokens|
      invariant forall j :: 0 <= j < i ==> |tokens[j].capability| < n
    {
      if |tokens[i].capability| >= n { n := |tokens[i].capability| + 1; }
    }
  }

  lemma LongerThanGrants(caps: seq<string>) returns (n: nat)
    ensures n > 0 && forall i :: 0 <= i < |caps| ==> |caps[i]| < n
  {
    n := 1;
    for i := 0 to |caps|
      invariant n > 0 && forall j :: 0 <= j < i ==> |caps[j]| < n
    {
      if |caps[i]| >= n { n := |caps[i]| + 1; }
    }
  }

  /** Requests that normalise to the token's probes exist: no part of what it covers is out of reach. */
  ghost predicate Reached(normalize: string -> string, capability: string) {
    forall n: nat :: n > 0 ==> ProbeReached(normalize, capability, n)
  }

  ghost predicate ProbeReached(normalize: string -> string, capability: string, n: nat) {
    exists request :: Normal(normalize, request) == Probe(capability, n)
  }

  /** So it is for every token when paths are taken as given. */
  lemma GivenPathsReach(capability: string)
    ensures Reached(AsGiven, capability)
  {
    forall n: nat | n > 0 ensures ProbeReached(AsGiven, capability, n) { ProbeIsGiven(capability, n); }
  }

  /** An unbacked token dropped alive shows in some answer. */
  lemma UnbackedShows(s: Store, T: real, normalize: string -> string, now: real, t: Token)
    requires Dropped(s, T, now, t) && !Backed(s, T, now, t) && Reached(normalize, t.capability)
    ensures !SameAnswers(s, Reloaded(s, T), normalize, now)
  {
    var n1 := LongerThanTokens(s.tokens);
    var n2 := LongerThanGrants(if t.agent in s.persistent then s.persistent[t.agent] else []);
    var n := n1 + n2;
    assert ProbeReached(normalize, t.capability, n);
    var request :| Normal(normalize, request) == Probe(t.capability, n);
    ProbeIsGiven(t.capability, n);
    AllowedByHeld(s, normalize, t.agent, request, now);
    AllowedByHeld(Reloaded(s, T), normalize, t.agent, request, now);
    var probe := Probe(t.capability, n);
    assert TokenAllows(t, t.agent, probe, now);
    if PersistentAllows(s, t.agent, probe) {
      var i :| 0 <= i < |s.persistent[t.agent]| && MatchesOne(probe, s.persistent[t.agent][i]);
      ProbeTells(s.persistent[t.agent][i], t.capability, n);
    } else if x :| Holds(Prune(s.tokens, T), x) && TokenAllows(x, t.agent, probe, now) {
      PruneHolds(s.tokens, T, x);
      ProbeTells(x.capability, t.capability, n);
    }
  }

  /** When each token dropped alive is covered by one grant its agent keeps, a save and a reload at T leave
      every answer at `now` as it was, for every agent and request and however paths are normalised. */
  lemma BackedReloadKeepsAnswers(s: Store, T: real, normalize: string -> string, now: real)
    requires forall t :: Dropped(s, T, now, t) ==> Backed(s, T, now, t)
    ensures SameAnswers(s, Reloaded(s, T), normalize, now)
  {
    forall agent, capability
      ensures Allowed(s, normalize, agent, capability, now)
           == Allowed(Reloaded(s, T), normalize, agent, capability, now)
    {
      ReloadOnlyNarrows(s, T, normalize, agent, capability, now);
      if Allowed(s, normalize, agent, capability, now) { BackedKeepsAnswer(s, T, normalize, agent, capability, now); }
    }
  }

  /** ... and only then, when normalised requests can reach what the dropped tokens cover: covering a token
      piecemeal is never enough. */
  lemma ReloadKeepsAnswersIff(s: Store, T: real, normalize: string -> string, now: real)
    requires forall t :: Dropped(s, T, now, t) ==> Reached(normalize, t.capability)
    ensures SameAnswers(s, Reloaded(s, T), normalize, now) <==>
        forall t :: Dropped(s, T, now, t) ==> Backed(s, T, now, t)
  {
    if forall t :: Dropped(s, T, now, t) ==> Backed(s, T, now, t) {
      BackedReloadKeepsAnswers(s, T, normalize, now);
    } else {
      var t :| Dropped(s, T, now, t) && !Backed(s, T, now, t);
      UnbackedShows(s, T, normalize, now, t);
    }
  }
}
