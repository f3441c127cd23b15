/** The identity stack of nested agents in the session config (ystar/session.py). */
module IdentityStack {
  import opened Common

  /** The keys the stack operations use; each may be absent. */
  datatype Config = Config(stack: Option<seq<string>>, agentId: Option<string>, lastChange: Option<real>)

  const FALLBACK := "agent"

  function Stack(c: Config): seq<string> { if c.stack.Some? then c.stack.value else [] }

  function Top(s: seq<string>): string
    requires s != []
  {
    s[|s| - 1]
  }

  function CurrentAgent(c: Config): string {
    if Stack(c) != [] then Top(Stack(c))
    else if c.agentId.Some? && c.agentId.value != "" then c.agentId.value
    else FALLBACK
  }

  /** The stack a push starts from: bootstrapped from the legacy field when the key is absent. */
  function Base(c: Config): seq<string> {
    if c.stack.Some? then c.stack.value else [if c.agentId.Some? then c.agentId.value else FALLBACK]
  }

  function Push(c: Config, a: string): Config {
    c.(stack := Some(Base(c) + [a]), agentId := Some(a))
  }

  function Pop(c: Config): Config {
    var s := Stack(c);
    if |s| <= 1 then c else c.(stack := Some(s[..|s| - 1]), agentId := Some(s[|s| - 2]))
  }

  function SetAgent(c: Config, a: string): Config {
    c.(stack := Some([a]), agentId := Some(a))
  }

  function LastChange(c: Config): real { if c.lastChange.Some? then c.lastChange.value else 0.0 }

  predicate TimesOut(c: Config, now: real, limit: real) {
    |Stack(c)| > 1 && now - LastChange(c) > limit
  }

  function Timeout(c: Config, now: real, limit: real): Config {
    if TimesOut(c, now, limit) then Config(Some([Stack(c)[0]]), Some(Stack(c)[0]), Some(now)) else c
  }

  // ---- the config file as an object ---------------------------------------------------

  class SessionConfig {
    var stack: Option<seq<string>>
    var agentId: Option<string>
    var lastChange: Option<real>

    function View(): Config
      reads this
    {
      Config(stack, agentId, lastChange)
    }

    constructor (c: Config)
      ensures View() == c
    {
      stack, agentId, lastChange := c.stack, c.agentId, c.lastChange;
    }

    method PushAgent(a: string)
      modifies this
      ensures View() == Push(old(View()), a)
    {
      if stack.None? {
        var existing := if agentId.Some? then agentId.value else FALLBACK;
        stack := Some([existing]);
      }
      stack := Some(stack.value + [a]);
      agentId := Some(a);
    }

    method PopAgent() returns (restored: string)
      modifies this
      ensures View() == Pop(old(View()))
      ensures restored == if Stack(View()) == [] then FALLBACK else Top(Stack(View()))
    {
      var s := if stack.Some? then stack.value else [];
      if s == [] {
        return FALLBACK;
      }
      if |s| == 1 {
        return s[0];
      }
      s := s[..|s| - 1];
      stack := Some(s);
      agentId := Some(s[|s| - 1]);
      return s[|s| - 1];
    }

    method ReplaceAgent(a: string)
      modifies this
      ensures View() == SetAgent(old(View()), a)
    {
      stack := Some([a]);
      agentId := Some(a);
    }

    method CheckTimeout(now: real, limit: real) returns (popped: bool)
      modifies this
      ensures View() == Timeout(old(View()), now, limit)
      ensures popped == TimesOut(old(View()), now, limit)
    {
      var s := if stack.Some? then stack.value else [];
      if |s| <= 1 {
        return false;
      }
      var since := if lastChange.Some? then lastChange.value else 0.0;
      if now - since > limit {
        stack := Some([s[0]]);
        agentId := Some(s[0]);
        lastChange := Some(now);
        return true;
      }
      return false;
    }
  }

  // ---- runs -------------------------------------------------------------------------------

  /** An operation and the time it happens; only the timeout reads that clock. */
  datatype Op =
    | DoPush(at: real, agent: string)
    | DoPop(at: real)
    | DoSet(at: real, agent: string)
    | DoTimeout(at: real, limit: real)

  function Apply(c: Config, op: Op): Config {
    match op
    case DoPush(_, a) => Push(c, a)
    case DoPop(_) => Pop(c)
    case DoSet(_, a) => SetAgent(c, a)
    case DoTimeout(now, limit) => Timeout(c, now, limit)
  }

  function Run(c: Config, ops: seq<Op>): Config {
    if ops == [] then c else Apply(Run(c, ops[..|ops| - 1]), ops[|ops| - 1])
  }

  /** Pushes minus pops, read left to right, never go below zero. */
  ghost predicate NoUnderflow(ops: seq<Op>) {
    ops != [] ==>
      && NoUnderflow(ops[..|ops| - 1])
      && (ops[|ops| - 1].DoPush? || (ops[|ops| - 1].DoPop? && Open(ops[..|ops| - 1]) != []))
  }

  /** The agents pushed and not yet popped. */
  ghost function Open(ops: seq<Op>): seq<string> {
    if ops == [] then []
    else
      var before := Open(ops[..|ops| - 1]);
      match ops[|ops| - 1]
      case DoPush(_, a) => before + [a]
      case DoPop(_) => if before == [] then [] else before[..|before| - 1]
      case _ => before
  }

  /** Pushes and pops match up like brackets. */
  ghost predicate WellNested(ops: seq<Op>) { NoUnderflow(ops) && Open(ops) == [] }

  /** A config whose current agent a push keeps at the bottom of the stack. */
  predicate Rooted(c: Config) {
    if c.stack.Some? then c.stack.value != [] else c.agentId != Some("")
  }

  /** During any run of pushes and matching pops the stack is the one it started from with the open
      pushes on top. */
  lemma {:induction false} StackIsBasePlusOpen(c: Config, ops: seq<Op>)
    requires Base(c) != [] && NoUnderflow(ops) && ops != []
    ensures Run(c, ops).stack == Some(Base(c) + Open(ops))
    ensures Run(c, ops).agentId == Some(Top(Base(c) + Open(ops)))
    decreases |ops|
  {
    var init, last := ops[..|ops| - 1], ops[|ops| - 1];
    var s := Base(c) + Open(init);
    if init == [] {
      assert Run(c, init) == c && Open(init) == [] && s == Base(c);
    } else {
      StackIsBasePlusOpen(c, init);
    }
    if last.DoPush? {
      PushTop(Run(c, init), s, last.agent);
      assert Base(c) + Open(ops) == s + [last.agent];
    } else {
      PopTop(Run(c, init), s);
      assert s[..|s| - 1] == Base(c) + Open(ops);
    }
  }

  lemma PushTop(d: Config, s: seq<string>, a: string)
    requires Base(d) == s
    ensures Push(d, a).stack == Some(s + [a]) && Push(d, a).agentId == Some(Top(s + [a]))
  {
  }

  lemma PopTop(d: Config, s: seq<string>)
    requires d.stack == Some(s) && |s| >= 2
    ensures Pop(d).stack == Some(s[..|s| - 1]) && Pop(d).agentId == Some(Top(s[..|s| - 1]))
  {
  }

  /** Any well-nested sequence of pushes and pops restores the stack and the current agent. */
  lemma WellNestedRestores(c: Config, ops: seq<Op>)
    requires Rooted(c) && WellNested(ops) && ops != []
    ensures Run(c, ops).stack == Some(Base(c)) && CurrentAgent(Run(c, ops)) == CurrentAgent(c)
    ensures c.stack.Some? ==> Run(c, ops).stack == c.stack
  {
    StackIsBasePlusOpen(c, ops);
    assert Base(c) + [] == Base(c);
  }

  /** That a push and its pop restore the current agent, whoever is pushed, holds iff the config is
      rooted: an empty stack list keeps the pushed agent, and an empty legacy id becomes the agent "". */
  lemma PushPopRestoresIff(c: Config)
    ensures (forall a :: CurrentAgent(Pop(Push(c, a))) == CurrentAgent(c)) <==> Rooted(c)
  {
    if Rooted(c) {
      forall a ensures CurrentAgent(Pop(Push(c, a))) == CurrentAgent(c) {
        assert (Base(c) + [a])[..|Base(c)|] == Base(c);
      }
    } else if c.stack.None? {
      assert CurrentAgent(Pop(Push(c, "x"))) == "";
    } else {
      var a := CurrentAgent(c) + "x";
      assert |a| == |CurrentAgent(c)| + 1;
      assert CurrentAgent(Pop(Push(c, a))) == a;
    }
  }

  /** The root agent is constant over every run of pushes, pops and timeouts, pops beyond the bottom
      included, whether the stack is there from the start or bootstrapped by the first push. */
  lemma {:induction false} RootIsConstant(c: Config, ops: seq<Op>)
    requires Base(c) != [] && forall i :: 0 <= i < |ops| ==> !ops[i].DoSet?
    ensures Base(Run(c, ops)) != [] && Base(Run(c, ops))[0] == Base(c)[0]
    ensures c.stack.Some? ==> Run(c, ops).stack.Some?
  {
    if ops != [] { RootIsConstant(c, ops[..|ops| - 1]); }
  }

  // ---- who is current after any run -------------------------------------------------------------------

  /** The agent pushed last and not yet popped is current; with none open it is whoever was before. */
  lemma CurrentIsInnermost(c: Config, ops: seq<Op>)
    requires Rooted(c) && NoUnderflow(ops)
    ensures CurrentAgent(Run(c, ops)) == if Open(ops) == [] then CurrentAgent(c) else Open(ops)[|Open(ops)| - 1]
  {
    if ops != [] {
      StackIsBasePlusOpen(c, ops);
      var stack := Base(c) + Open(ops);
      assert CurrentAgent(Run(c, ops)) == Top(stack);
      if Open(ops) == [] { assert stack == Base(c); }
    }
  }

  /** Setting an agent, whatever the config has become, leaves it alone on the stack with what is opened since. */
  lemma SetReplacesAll(c: Config, at: real, a: string, nested: seq<Op>)
    requires NoUnderflow(nested)
    ensures var d := Run(Apply(c, DoSet(at, a)), nested);
            && d.stack == Some([a] + Open(nested))
            && CurrentAgent(d) == if Open(nested) == [] then a else Open(nested)[|Open(nested)| - 1]
  {
    if nested == [] { assert [a] + Open(nested) == [a]; } else { StackIsBasePlusOpen(SetAgent(c, a), nested); }
  }

  /** A timeout that fires, whatever the config has become, leaves the root agent alone on the stack, however
      deep it was, and does not fire again within its limit. */
  lemma TimeoutReturnsToRoot(c: Config, at: real, limit: real, nested: seq<Op>)
    requires NoUnderflow(nested) && TimesOut(c, at, limit)
    ensures var root, d := Stack(c)[0], Run(Apply(c, DoTimeout(at, limit)), nested);
            && d.stack == Some([root] + Open(nested))
            && CurrentAgent(d) == (if Open(nested) == [] then root else Open(nested)[|Open(nested)| - 1])
            && forall now :: now - at <= limit ==> !TimesOut(d, now, limit)
  {
    var root, start := Stack(c)[0], Timeout(c, at, limit);
    StampStays(start, nested);
    if nested == [] { assert [root] + Open(nested) == [root]; } else { StackIsBasePlusOpen(start, nested); }
  }

  lemma {:induction false} StampStays(c: Config, nested: seq<Op>)
    requires NoUnderflow(nested)
    ensures Run(c, nested).lastChange == c.lastChange
  {
    if nested != [] { StampStays(c, nested[..|nested| - 1]); }
  }

  /** A config with none of the keys: the agent is "agent", stays at the bottom under pushes, and comes back. */
  lemma EmptyConfigFallsBack(at: real, a: string)
    ensures var c := Config(None, None, None);
            && CurrentAgent(c) == "agent" && CurrentAgent(c.(agentId := Some(""))) == "agent"
            && Run(c, [DoPush(at, a)]).stack == Some(["agent", a])
            && CurrentAgent(Run(c, [DoPush(at, a), DoPop(at)])) == "agent"
  {
    var c, push := Config(None, None, None), [DoPush(at, a)];
    assert push[..0] == [] && Run(c, push) == Push(c, a);
    assert Push(c, a).stack == Some(["agent"] + [a]) && ["agent"] + [a] == ["agent", a];
    assert [DoPush(at, a), DoPop(at)][..1] == push;
  }

  /** Pops beyond the bottom change nothing. */
  lemma RootPopIsNothing(c: Config, at: real)
    ensures Run(c, [DoPop(at)]) == c <==> |Stack(c)| <= 1
  {
    assert [DoPop(at)][..0] == [];
  }

  /** The legacy field names the top of the stack. */
  predicate Mirrors(c: Config) {
    Stack(c) != [] ==> c.agentId == Some(Top(Stack(c)))
  }

  /** After an operation the legacy field mirrors the stack top iff the operation wrote the config or
      it did so before. */
  lemma MirrorsAfterIff(c: Config, op: Op)
    ensures Mirrors(Apply(c, op)) <==>
              || op.DoPush? || op.DoSet?
              || (op.DoPop? && |Stack(c)| > 1)
              || (op.DoTimeout? && TimesOut(c, op.at, op.limit))
              || Mirrors(c)
  {
  }

  lemma {:induction false} RunsKeepMirroring(c: Config, ops: seq<Op>)
    requires Mirrors(c)
    ensures Mirrors(Run(c, ops))
  {
    if ops != [] {
      RunsKeepMirroring(c, ops[..|ops| - 1]);
      MirrorsAfterIff(Run(c, ops[..|ops| - 1]), ops[|ops| - 1]);
    }
  }

  /** Time of the latest timeout that fired in a run, or the stamp the run began with. */
  ghost function LatestFiring(c: Config, ops: seq<Op>): real {
    if ops == [] then LastChange(c)
    else
      var before := Run(c, ops[..|ops| - 1]);
      var last := ops[|ops| - 1];
      if last.DoTimeout? && TimesOut(before, last.at, last.limit) then last.at else LatestFiring(c, ops[..|ops| - 1])
  }

  /** The timeout measures from its own last firing only: no push, pop or replacement postpones it. */
  lemma {:induction false} TimeoutIgnoresPushes(c: Config, ops: seq<Op>, now: real, limit: real)
    ensures LastChange(Run(c, ops)) == LatestFiring(c, ops)
    ensures TimesOut(Run(c, ops), now, limit) <==> |Stack(Run(c, ops))| > 1 && now - LatestFiring(c, ops) > limit
  {
    if ops != [] { TimeoutIgnoresPushes(c, ops[..|ops| - 1], now, limit); }
  }

  // ---- the timeout as documented: a stack unchanged for too long ---------------------------------------

  /** The clock never runs back, from the time `since` at which the run begins. */
  ghost predicate Forward(ops: seq<Op>, since: real) {
    && (forall i :: 0 <= i < |ops| ==> since <= ops[i].at)
    && (forall i, j :: 0 <= i < j < |ops| ==> ops[i].at <= ops[j].at)
  }

  /** When the stack last changed, if it had last done so at `since` when the run began. */
  ghost function Changed(c: Config, ops: seq<Op>, since: real): real {
    if ops == [] then since
    else
      var init, last := ops[..|ops| - 1], ops[|ops| - 1];
      if Stack(Run(c, ops)) != Stack(Run(c, init)) then last.at else Changed(c, init, since)
  }

  lemma {:induction false} FiringIsChange(c: Config, ops: seq<Op>, since: real)
    requires Forward(ops, since) && LastChange(c) <= since
    ensures LatestFiring(c, ops) <= Changed(c, ops, since)
    ensures since <= Changed(c, ops, since) <= if ops == [] then since else ops[|ops| - 1].at
  {
    if ops != [] {
      var init := ops[..|ops| - 1];
      assert forall i :: 0 <= i < |init| ==> init[i] == ops[i];
      FiringIsChange(c, init, since);
    }
  }

  /** What the timeout is documented to find: a nested stack unchanged for longer than the limit. */
  ghost predicate Stale(c: Config, ops: seq<Op>, since: real, now: real, limit: real) {
    |Stack(Run(c, ops))| > 1 && now - Changed(c, ops, since) > limit
  }

  /** After every run on a forward clock the timeout fires whenever the stack is stale. It fires exactly
      then iff there is nothing to pop, or it fired itself within the limit, or no change fell within it. */
  lemma TimeoutFindsStaleIff(c: Config, ops: seq<Op>, since: real, now: real, limit: real)
    requires Forward(ops, since) && LastChange(c) <= since
    ensures Stale(c, ops, since, now, limit) ==> TimesOut(Run(c, ops), now, limit)
    ensures (TimesOut(Run(c, ops), now, limit) <==> Stale(c, ops, since, now, limit)) <==>
              || |Stack(Run(c, ops))| <= 1
              || now - LatestFiring(c, ops) <= limit
              || now - Changed(c, ops, since) > limit
  {
    TimeoutIgnoresPushes(c, ops, now, limit);
    FiringIsChange(c, ops, since);
  }

  /** A stack never timed out before is measured from time zero. */
  lemma UnstampedCountsFromZero(c: Config, now: real, limit: real)
    requires c.lastChange == None && c.stack.Some?
    ensures TimesOut(c, now, limit) <==> |c.stack.value| >= 2 && now > limit
  {
  }

  /** A delegation one second old is popped by a check with a limit of five minutes. */
  lemma FreshPushTimesOut()
    ensures var c := Config(Some(["ceo"]), Some("ceo"), None);
            var ops := [DoPush(999.0, "cto")];
            && Forward(ops, 0.0) && Changed(c, ops, 0.0) == 999.0 && !Stale(c, ops, 0.0, 1000.0, 300.0)
            && TimesOut(Run(c, ops), 1000.0, 300.0)
            && Stack(Run(c, ops + [DoTimeout(1000.0, 300.0)])) == ["ceo"]
  {
    var c := Config(Some(["ceo"]), Some("ceo"), None);
    var ops := [DoPush(999.0, "cto")];
    assert ops[..0] == [] && Run(c, ops) == Push(c, "cto");
    assert (ops + [DoTimeout(1000.0, 300.0)])[..1] == ops;
  }
}
