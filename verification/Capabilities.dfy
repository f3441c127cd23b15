/** Capability tokens: time-bound grants, revocation and what survives a save and a reload
    (ystar/capabilities.py). */
module Capabilities {
  import opened Common

  datatype Token = Token(agent: string, capability: string, grantedAt: real, expiresAt: Option<real>,
                         grantedBy: string, reason: string)

  datatype Store = Store(persistent: map<string, seq<string>>, tokens: seq<Token>)

  // ---- matching -----------------------------------------------------------------------

  /** `s.partition(":")` without the separator. */
  function Cut(s: string): (string, string) {
    if s == "" then ("", "")
    else if s[0] == ':' then ("", s[1..])
    else var (a, b) := Cut(s[1..]); ([s[0]] + a, b)
  }

  predicate MatchesOne(requested: string, cap: string) {
    var (actionReq, scopeReq) := Cut(requested);
    var (actionGrant, scopeGrant) := Cut(cap);
    actionReq == actionGrant &&
    (|| scopeGrant == ""
     || scopeReq == scopeGrant
     || (EndsWith(scopeGrant, "/*") &&
         var prefix := scopeGrant[..|scopeGrant| - 2]; StartsWith(scopeReq, prefix + "/") || scopeReq == prefix)
     || scopeGrant == "*")
  }

  lemma {:induction false} CutAtFirstColon(action: string, scope: string)
    requires ':' !in action
    ensures Cut(action + ":" + scope) == (action, scope)
  {
    var s := action + ":" + scope;
    if action == "" {
      assert s == ":" + scope && s[1..] == scope;
    } else {
      assert s[1..] == action[1..] + ":" + scope;
      CutAtFirstColon(action[1..], scope);
      assert action == [action[0]] + action[1..];
    }
  }

  /** What the forms of a grant cover: a directory grant covers the directory and what lies below it
      and nothing beside it, a star or an empty scope everything of its action, any other scope
      itself only; and no grant covers another action. */
  lemma GrantsCover(action: string, other: string, path: string, dir: string)
    requires ':' !in action && ':' !in other
    ensures MatchesOne(action + ":" + path, action + ":" + (dir + "/*")) <==> path == dir || StartsWith(path, dir + "/")
    ensures MatchesOne(action + ":" + path, action + ":" + "*") && MatchesOne(action + ":" + path, action + ":" + "")
    ensures dir != "" && dir != "*" && !EndsWith(dir, "/*") ==>
        (MatchesOne(action + ":" + path, action + ":" + dir) <==> path == dir)
    ensures other != action ==> !MatchesOne(action + ":" + path, other + ":" + dir)
  {
    var star := dir + "/*";
    CutAtFirstColon(action, path);
    CutAtFirstColon(action, star);
    CutAtFirstColon(action, "*");
    CutAtFirstColon(action, "");
    CutAtFirstColon(action, dir);
    CutAtFirstColon(other, dir);
    assert star[|star| - 2..] == "/*" && star[..|star| - 2] == dir;
    assert StartsWith(star, dir + "/") by { assert star[..|dir| + 1] == dir + "/"; }
    assert |star| == |dir| + 2;
  }

  predicate Matches(requested: string, granted: seq<string>) {
    exists i :: 0 <= i < |granted| && MatchesOne(requested, granted[i])
  }

  /** The request as check looks it up; path normalisation is a parameter. */
  function Normal(normalize: string -> string, capability: string): string {
    var (action, scope) := Cut(capability);
    if scope != "" then action + ":" + normalize(scope) else capability
  }

  // ---- the engine's decisions ----------------------------------------------------------------

  /** check skips a token only if it has a non-zero expiry that has passed. */
  predicate Live(t: Token, now: real) {
    !(t.expiresAt.Some? && t.expiresAt.value != 0.0 && t.expiresAt.value < now)
  }

  predicate TokenAllows(t: Token, agent: string, requested: string, now: real) {
    t.agent == agent && Live(t, now) && MatchesOne(requested, t.capability)
  }

  predicate PersistentAllows(s: Store, agent: string, requested: string) {
    agent in s.persistent && Matches(requested, s.persistent[agent])
  }

  predicate Allowed(s: Store, normalize: string -> string, agent: string, capability: string, now: real) {
    var requested := Normal(normalize, capability);
    PersistentAllows(s, agent, requested) || exists i ::
        0 <= i < |s.tokens| && TokenAllows(s.tokens[i], agent, requested, now)
  }

  function Expiry(now: real, duration: Option<int>): Option<real> {
    if duration.Some? && duration.value != 0 then Some(now + duration.value as real) else None
  }

  function Granted(agent: string, capability: string, duration: Option<int>, grantor: string, reason: string,
      now: real): Token {
    Token(agent, capability, now, Expiry(now, duration), grantor, reason)
  }

  function Without(tokens: seq<Token>, agent: string, capability: string): seq<Token> {
    if tokens == [] then []
    else
      var last := tokens[|tokens| - 1];
      Without(tokens[..|tokens| - 1], agent, capability)
          + (if last.agent == agent && last.capability == capability then [] else [last])
  }

  /** What loading keeps: tokens without expiry and those that expire later than now. */
  predicate Survives(t: Token, now: real) { t.expiresAt.None? || t.expiresAt.value > now }

  function Prune(tokens: seq<Token>, now: real): seq<Token> {
    if tokens == [] then []
    else
      var last := tokens[|tokens| - 1];
      Prune(tokens[..|tokens| - 1], now) + (if Survives(last, now) then [last] else [])
  }

  // ---- the engine as the class it is -----------------------------------------------------------

  class CapabilityEngine {
    var capabilities: map<string, seq<string>>
    var tokens: seq<Token>
    /** The session file's two sections. */
    var file: Store

    function View(): Store
      reads this
    {
      Store(capabilities, tokens)
    }

    constructor (file: Store, now: real)
      ensures View() == Store(file.persistent, Prune(file.tokens, now)) && this.file == file
    {
      this.file := file;
      capabilities := file.persistent;
      tokens := [];
      new;
      LoadAt(now);
    }

    method LoadAt(now: real)
      modifies this
      ensures View() == Store(file.persistent, Prune(file.tokens, now)) && file == old(file)
    {
      capabilities := file.persistent;
      tokens := [];
      for i := 0 to |file.tokens|
        invariant file == old(file) && capabilities == file.persistent
        invariant tokens == Prune(file.tokens[..i], now)
      {
        assert file.tokens[..i + 1][..i] == file.tokens[..i];
        var t := file.tokens[i];
        if t.expiresAt.None? || t.expiresAt.value > now {
          tokens := tokens + [t];
        }
      }
      assert file.tokens[..|file.tokens|] == file.tokens;
    }

    method Save()
      modifies this`file
      ensures file == View()
    {
      file := Store(capabilities, tokens);
    }

    method Check(normalize: string -> string, agent: string, capability: string, now: real) returns (allowed: bool)
      ensures allowed == Allowed(View(), normalize, agent, capability, now)
    {
      var requested := Normal(normalize, capability);
      if agent in capabilities {
        var caps := capabilities[agent];
        for i := 0 to |caps|
          invariant forall j :: 0 <= j < i ==> !MatchesOne(requested, caps[j])
        {
          if MatchesOne(requested, caps[i]) {
            return true;
          }
        }
      }
      for i := 0 to |tokens|
        invariant forall j :: 0 <= j < i ==> !TokenAllows(tokens[j], agent, requested, now)
      {
        var t := tokens[i];
        if t.agent == agent {
          if !(t.expiresAt.Some? && t.expiresAt.value != 0.0 && t.expiresAt.value < now) {
            if MatchesOne(requested, t.capability) {
              assert TokenAllows(tokens[i], agent, requested, now);
              return true;
            }
          }
        }
      }
      return false;
    }

    method Grant(agent: string, capability: string, duration: Option<int>, grantor: string, reason: string,
        now: real) returns (t: Token)
      modifies this
      ensures t == Granted(agent, capability, duration, grantor, reason, now)
      ensures View() == Apply(old(View()), GrantOp(t)) && file == View()
    {
      var expiresAt := if duration.Some? && duration.value != 0 then Some(now + duration.value as real) else None;
      t := Token(agent, capability, now, expiresAt, grantor, reason);
      tokens := tokens + [t];
      Save();
    }

    method Revoke(agent: string, capability: string) returns (revoked: bool)
      modifies this
      ensures View() == Apply(old(View()), RevokeOp(agent, capability))
      ensures revoked <==> exists i ::
          0 <= i < |old(tokens)| && old(tokens)[i].agent == agent && old(tokens)[i].capability == capability
      ensures file == if revoked then View() else old(file)
    {
      var kept := [];
      for i := 0 to |tokens|
        invariant kept == Without(tokens[..i], agent, capability) && |kept| <= i
        invariant |kept| < i <==>
            exists j :: 0 <= j < i && tokens[j].agent == agent && tokens[j].capability == capability
      {
        assert tokens[..i + 1][..i] == tokens[..i];
        if !(tokens[i].agent == agent && tokens[i].capability == capability) {
          kept := kept + [tokens[i]];
        }
      }
      assert tokens[..|tokens|] == tokens;
      revoked := |kept| < |tokens|;
      tokens := kept;
      if revoked {
        Save();
      }
    }
  }

  // ---- histories ------------------------------------------------------------------------------

  datatype Op = GrantOp(token: Token) | RevokeOp(agent: string, capability: string)

  function Apply(s: Store, op: Op): Store {
    match op
    case GrantOp(t) => s.(tokens := s.tokens + [t])
    case RevokeOp(agent, capability) => s.(tokens := Without(s.tokens, agent, capability))
  }

  function Run(s: Store, ops: seq<Op>): Store {
    if ops == [] then s else Apply(Run(s, ops[..|ops| - 1]), ops[|ops| - 1])
  }

  predicate Holds(tokens: seq<Token>, t: Token) { exists i :: 0 <= i < |tokens| && tokens[i] == t }

  lemma {:induction false} WithoutHolds(tokens: seq<Token>, agent: string, capability: string, t: Token)
    ensures Holds(Without(tokens, agent, capability), t) <==>
        Holds(tokens, t) && !(t.agent == agent && t.capability == capability)
  {
    if tokens != [] {
      var init := tokens[..|tokens| - 1];
      WithoutHolds(init, agent, capability, t);
      HoldsSnoc(init, tokens[|tokens| - 1], t);
      HoldsSnoc(Without(init, agent, capability), tokens[|tokens| - 1], t);
      assert tokens == init + [tokens[|tokens| - 1]];
      assert Without(init, agent, capability) + [] == Without(init, agent, capability);
    }
  }

  lemma HoldsSnoc(tokens: seq<Token>, x: Token, t: Token)
    ensures Holds(tokens + [x], t) <==> Holds(tokens, t) || x == t
  {
    assert (tokens + [x])[|tokens|] == x;
    if Holds(tokens, t) {
      var i :| 0 <= i < |tokens| && tokens[i] == t;
      assert (tokens + [x])[i] == t;
    }
  }

  lemma {:induction false} PruneHolds(tokens: seq<Token>, now: real, t: Token)
    ensures Holds(Prune(tokens, now), t) <==> Holds(tokens, t) && Survives(t, now)
  {
    if tokens != [] {
      var init := tokens[..|tokens| - 1];
      PruneHolds(init, now, t);
      HoldsSnoc(init, tokens[|tokens| - 1], t);
      HoldsSnoc(Prune(init, now), tokens[|tokens| - 1], t);
      assert tokens == init + [tokens[|tokens| - 1]];
      assert Prune(init, now) + [] == Prune(init, now);
    }
  }

  /** The answer depends on which tokens are held, not on their order or number. */
  lemma AllowedByHeld(s: Store, normalize: string -> string, agent: string, capability: string, now: real)
    ensures Allowed(s, normalize, agent, capability, now) <==>
              || PersistentAllows(s, agent, Normal(normalize, capability))
              || exists t :: Holds(s.tokens, t) && TokenAllows(t, agent, Normal(normalize, capability), now)
  {
  }

  /** A grant of the history that no later revocation of its pair took back. */
  ghost predicate Stands(ops: seq<Op>, t: Token) {
    exists i :: 0 <= i < |ops| && ops[i] == GrantOp(t) && NotRevokedFrom(ops, i, t)
  }

  ghost predicate NotRevokedFrom(ops: seq<Op>, i: nat, t: Token) {
    forall j :: i <= j < |ops| ==> ops[j] != RevokeOp(t.agent, t.capability)
  }

  /** After any history the tokens held are the initial ones never revoked and the grants not revoked since. */
  lemma {:induction false} HeldIsHistory(s: Store, ops: seq<Op>, t: Token)
    ensures Holds(Run(s, ops).tokens, t) <==> (Holds(s.tokens, t) && NotRevokedFrom(ops, 0, t)) || Stands(ops, t)
    ensures Run(s, ops).persistent == s.persistent
  {
    if ops != [] {
      var init := ops[..|ops| - 1];
      var last := ops[|ops| - 1];
      HeldIsHistory(s, init, t);
      StandsSnoc(init, last, t);
      assert ops == init + [last];
      match last
      case GrantOp(x) => HoldsSnoc(Run(s, init).tokens, x, t);
      case RevokeOp(a, c) => WithoutHolds(Run(s, init).tokens, a, c, t);
    }
  }

  lemma StandsSnoc(ops: seq<Op>, op: Op, t: Token)
    ensures Stands(ops + [op], t) <==> (Stands(ops, t) && op != RevokeOp(t.agent, t.capability)) || op == GrantOp(t)
    ensures NotRevokedFrom(ops + [op], 0, t) <==> NotRevokedFrom(ops, 0, t) && op != RevokeOp(t.agent, t.capability)
  {
    var all := ops + [op];
    assert all[|ops|] == op;
    if Stands(all, t) {
      var i :| 0 <= i < |all| && all[i] == GrantOp(t) && NotRevokedFrom(all, i, t);
      if i < |ops| {
        forall j | i <= j < |ops| ensures ops[j] != RevokeOp(t.agent, t.capability) { assert all[j] == ops[j]; }
        assert ops[i] == GrantOp(t) && NotRevokedFrom(ops, i, t);
      }
    }
    if Stands(ops, t) && op != RevokeOp(t.agent, t.capability) {
      var i :| 0 <= i < |ops| && ops[i] == GrantOp(t) && NotRevokedFrom(ops, i, t);
      assert all[i] == GrantOp(t) && NotRevokedFrom(all, i, t);
    }
    if op == GrantOp(t) { assert NotRevokedFrom(all, |ops|, t); }
    if NotRevokedFrom(all, 0, t) {
      forall j | 0 <= j < |ops| ensures ops[j] != RevokeOp(t.agent, t.capability) { assert all[j] == ops[j]; }
    }
  }

  // ---- persistence ----------------------------------------------------------------------------

  /** A held token that check takes to live on and a load at T drops: its expiry is the zero that check
      reads as "never", or it expires at the very instant of the load. */
  ghost predicate DroppedAlive(tokens: seq<Token>, T: real, now: real) {
    || (T >= 0.0 && exists t :: Holds(tokens, t) && t.expiresAt == Some(0.0))
    || (now == T && exists t :: Holds(tokens, t) && t.expiresAt == Some(T))
  }

  /** Pruning at T loses a token that is live then or later iff there is such a one. */
  lemma PruneKeepsLiveIff(tokens: seq<Token>, T: real, now: real)
    requires T <= now
    ensures (forall t :: Holds(tokens, t) && Live(t, now) ==> Holds(Prune(tokens, T), t)) <==>
        !DroppedAlive(tokens, T, now)
  {
    forall t ensures Holds(Prune(tokens, T), t) <==> Holds(tokens, t) && Survives(t, T) { PruneHolds(tokens, T, t); }
    if T >= 0.0 && exists t :: Holds(tokens, t) && t.expiresAt == Some(0.0) {
      var t :| Holds(tokens, t) && t.expiresAt == Some(0.0);
      assert Live(t, now) && !Survives(t, T);
    }
    if now == T && exists t :: Holds(tokens, t) && t.expiresAt == Some(T) {
      var t :| Holds(tokens, t) && t.expiresAt == Some(T);
      assert Live(t, now) && !Survives(t, T);
    }
  }

  /** Saving and reloading at T changes no answer at T or later, for any agent and request, unless the
      load drops a token alive. */
  lemma ReloadChangesNoAnswer(s: Store, T: real, normalize: string -> string, agent: string, capability: string,
      now: real)
    requires T <= now && !DroppedAlive(s.tokens, T, now)
    ensures Allowed(s.(tokens := Prune(s.tokens, T)), normalize, agent, capability, now)
        == Allowed(s, normalize, agent, capability, now)
  {
    var p := s.(tokens := Prune(s.tokens, T));
    AllowedByHeld(s, normalize, agent, capability, now);
    AllowedByHeld(p, normalize, agent, capability, now);
    forall t ensures Holds(p.tokens, t) <==> Holds(s.tokens, t) && Survives(t, T) { PruneHolds(s.tokens, T, t); }
    PruneKeepsLiveIff(s.tokens, T, now);
  }

  function AsGiven(scope: string): string { scope }

  /** The answer at `now` to the request that names a token's own capability, path left as it is. */
  ghost predicate Answers(s: Store, t: Token, now: real) {
    Allowed(s, AsGiven, t.agent, t.capability, now)
  }

  /** A token dropped alive changes the answer to its own capability, when nothing else its agent has covers that. */
  lemma ReloadAtExpiryDropsLiveToken(s: Store, t: Token, T: real)
    requires Holds(s.tokens, t) && t.expiresAt == Some(T) && t.agent !in s.persistent
    requires forall x :: Holds(s.tokens, x) && x.agent == t.agent ==> x == t
    ensures Answers(s, t, T) && !Answers(s.(tokens := Prune(s.tokens, T)), t, T)
  {
    var p := s.(tokens := Prune(s.tokens, T));
    AllowedByHeld(s, AsGiven, t.agent, t.capability, T);
    AllowedByHeld(p, AsGiven, t.agent, t.capability, T);
    forall x ensures Holds(p.tokens, x) <==> Holds(s.tokens, x) && Survives(x, T) { PruneHolds(s.tokens, T, x); }
    MatchesItself(t.capability);
    assert TokenAllows(t, t.agent, Normal(AsGiven, t.capability), T);
  }

  lemma MatchesItself(capability: string)
    ensures MatchesOne(Normal(AsGiven, capability), capability)
  {
    CutHead(capability);
    var (action, scope) := Cut(capability);
    CutAtFirstColon(action, scope);
  }

  lemma {:induction false} CutHead(s: string)
    ensures ':' !in Cut(s).0
  {
    if s != "" && s[0] != ':' { CutHead(s[1..]); }
  }

  /** No grant made at a positive time for a non-negative (or no) duration carries expiry zero, so a
      history of such grants survives a reload at any time but an instant of expiry. */
  lemma HistorySurvivesReload(s: Store, ops: seq<Op>, T: real, normalize: string -> string, agent: string,
      capability: string, now: real)
    requires T <= now
    requires forall t :: Holds(s.tokens, t) ==> t.expiresAt != Some(0.0)
    requires forall i :: 0 <= i < |ops| && ops[i].GrantOp? ==> OrdinaryGrant(ops[i].token)
    requires now == T ==> forall t :: Holds(Run(s, ops).tokens, t) ==> t.expiresAt != Some(T)
    ensures var after := Run(s, ops);
            Allowed(after.(tokens := Prune(after.tokens, T)), normalize, agent, capability, now)
                == Allowed(after, normalize, agent, capability, now)
  {
    var after := Run(s, ops);
    forall t | Holds(after.tokens, t) ensures t.expiresAt != Some(0.0) {
      HeldIsHistory(s, ops, t);
      if Stands(ops, t) {
        var i :| 0 <= i < |ops| && ops[i] == GrantOp(t) && NotRevokedFrom(ops, i, t);
        assert OrdinaryGrant(ops[i].token);
      }
    }
    ReloadChangesNoAnswer(after, T, normalize, agent, capability, now);
  }

  ghost predicate OrdinaryGrant(t: Token) {
    exists duration: Option<int> ::
        t.grantedAt > 0.0 && (duration.Some? ==> duration.value >= 0) && t.expiresAt == Expiry(t.grantedAt, duration)
  }

  // ---- revocation ------------------------------------------------------------------------------

  /** Revoking a pair changes no other agent's answers, takes exactly the pair's tokens away from its
      agent, and never touches what the agent holds persistently. */
  lemma RevokeIsLocal(s: Store, agent: string, capability: string, normalize: string -> string, other: string,
      request: string, now: real)
    ensures var t := Apply(s, RevokeOp(agent, capability));
            && (other != agent ==>
                Allowed(t, normalize, other, request, now) == Allowed(s, normalize, other, request, now))
            && (Allowed(t, normalize, agent, request, now) <==>
                  || PersistentAllows(s, agent, Normal(normalize, request))
                  || exists x ::
                      Holds(s.tokens, x) && x.capability != capability
                      && TokenAllows(x, agent, Normal(normalize, request), now))
  {
    var t := Apply(s, RevokeOp(agent, capability));
    AllowedByHeld(s, normalize, other, request, now);
    AllowedByHeld(t, normalize, other, request, now);
    AllowedByHeld(t, normalize, agent, request, now);
    forall x ensures Holds(t.tokens, x) <==> Holds(s.tokens, x) && !(x.agent == agent && x.capability == capability) {
      WithoutHolds(s.tokens, agent, capability, x);
    }
  }

  /** After any history an agent is allowed a request iff a persistent capability matches it, or a live
      token does that was held at first or granted since and not revoked after. */
  lemma AnswersAreHistory(s: Store, ops: seq<Op>, normalize: string -> string, agent: string, request: string,
      now: real)
    ensures Allowed(Run(s, ops), normalize, agent, request, now) <==>
              || PersistentAllows(s, agent, Normal(normalize, request))
              || exists t :: TokenAllows(t, agent, Normal(normalize, request), now)
                          && ((Holds(s.tokens, t) && NotRevokedFrom(ops, 0, t)) || Stands(ops, t))
  {
    AllowedByHeld(Run(s, ops), normalize, agent, request, now);
    forall t ensures Holds(Run(s, ops).tokens, t) <==>
        (Holds(s.tokens, t) && NotRevokedFrom(ops, 0, t)) || Stands(ops, t) {
      HeldIsHistory(s, ops, t);
    }
    HeldIsHistory(s, ops, Token("", "", 0.0, None, "", ""));
  }

  // ---- the answers spelled out ---------------------------------------------------------------------

  /** check looks up the normalised path, and a request without a path as it is. */
  lemma CheckNormalizes(s: Store, normalize: string -> string, agent: string, action: string, path: string, now: real)
    requires ':' !in action
    ensures path != "" ==>
              Allowed(s, normalize, agent, action + ":" + path, now)
                == Allowed(s, AsGiven, agent, action + ":" + normalize(path), now)
    ensures Allowed(s, normalize, agent, action + ":", now) == Allowed(s, AsGiven, agent, action + ":", now)
    ensures Allowed(s, normalize, agent, action, now) == Allowed(s, AsGiven, agent, action, now)
  {
    CutAtFirstColon(action, path);
    CutAtFirstColon(action, normalize(path));
    CutAtFirstColon(action, "");
    CutNoColon(action);
    assert action + ":" + "" == action + ":";
  }

  lemma {:induction false} CutNoColon(s: string)
    requires ':' !in s
    ensures Cut(s) == (s, "")
  {
    if s != "" {
      CutNoColon(s[1..]);
      assert s == [s[0]] + s[1..];
    }
  }

  /** A grant made at a time lives for its duration, the last instant included, or for ever without one (or with
      a zero one); an expiry that lands on zero never comes. */
  lemma GrantLives(agent: string, capability: string, duration: Option<int>, grantor: string, reason: string,
      at: real, now: real)
    ensures Live(Granted(agent, capability, duration, grantor, reason, at), now) <==>
              || duration == None || duration == Some(0)
              || at + duration.value as real == 0.0
              || now <= at + duration.value as real
    ensures var t := Granted(agent, capability, duration, grantor, reason, at);
            (t.agent, t.capability, t.grantedAt, t.grantedBy, t.reason) == (agent, capability, at, grantor, reason)
  {
  }

  /** One granted directory and nothing else: a request for a path is allowed iff its normal form is the directory
      or below it and the grant still lives. */
  lemma GrantedDirectory(normalize: string -> string, agent: string, other: string, action: string, dir: string,
      path: string, duration: Option<int>, grantor: string, reason: string, at: real, now: real)
    requires ':' !in action && path != ""
    ensures var t := Granted(agent, action + ":" + (dir + "/*"), duration, grantor, reason, at);
            var s := Apply(Store(map[], []), GrantOp(t));
            Allowed(s, normalize, other, action + ":" + path, now) <==>
              && other == agent
              && (normalize(path) == dir || dir + "/" <= normalize(path))
              && (duration == None || duration == Some(0) || at + duration.value as real == 0.0
                  || now <= at + duration.value as real)
  {
    var t := Granted(agent, action + ":" + (dir + "/*"), duration, grantor, reason, at);
    var s := Apply(Store(map[], []), GrantOp(t));
    GrantsCover(action, action, normalize(path), dir);
    GrantLives(agent, action + ":" + (dir + "/*"), duration, grantor, reason, at, now);
    CutAtFirstColon(action, path);
    assert s.tokens == [t];
    assert Normal(normalize, action + ":" + path) == action + ":" + normalize(path);
    assert Allowed(s, normalize, other, action + ":" + path, now) <==>
        TokenAllows(s.tokens[0], other, action + ":" + normalize(path), now);
  }

  /** Persistent capabilities count for their own agent, at any time and through any grants and revocations. */
  lemma PersistentAlways(s: Store, ops: seq<Op>, normalize: string -> string, agent: string, request: string, now: real)
    ensures (forall t :: Holds(Run(s, ops).tokens, t) ==> t.agent != agent) ==>
              (Allowed(Run(s, ops), normalize, agent, request, now) <==>
                agent in s.persistent && exists i ::
                    0 <= i < |s.persistent[agent]| && MatchesOne(Normal(normalize, request), s.persistent[agent][i]))
  {
    HeldIsHistory(s, ops, Token("", "", 0.0, None, "", ""));
    AllowedByHeld(Run(s, ops), normalize, agent, request, now);
  }
}
