/** Dispatches must come in one batch or well apart: a sliding window over each dispatcher's accepted
    dispatches (ystar/adapters/boundary_enforcer.py). */
module DispatchWindow {
  import opened Common

  const WINDOW := 60.0
  const SERIAL_GAP := 30.0
  const BATCH_GAP := 1.0

  datatype Dispatch = Dispatch(at: real, target: string)

  type History = map<string, seq<Dispatch>>

  function Of(h: History, who: string): seq<Dispatch> { if who in h then h[who] else [] }

  function Recent(log: seq<Dispatch>, now: real): seq<Dispatch> {
    if log == [] then []
    else
      Recent(log[..|log| - 1], now) + (if now - log[|log| - 1].at < WINDOW then [log[|log| - 1]] else [])
  }

  /** A dispatch is refused when the last recorded one is at least a second but under 30 seconds old. */
  predicate Refused(log: seq<Dispatch>, now: real) {
    log != [] && BATCH_GAP <= now - log[|log| - 1].at < SERIAL_GAP
  }

  /** The rule as it runs: prune, decide, record. */
  function Check(h: History, who: string, d: Dispatch): (History, bool) {
    var kept := Recent(Of(h, who), d.at);
    if Refused(kept, d.at) then (h[who := kept], false) else (h[who := kept + [d]], true)
  }

  /** The rule over the full log, nothing ever dropped. */
  function CheckFull(h: History, who: string, d: Dispatch): (History, bool) {
    var log := Of(h, who);
    if Refused(log, d.at) then (h[who := log], false) else (h[who := log + [d]], true)
  }

  class DispatchTracker {
    var history: History

    constructor ()
      ensures history == map[]
    {
      history := map[];
    }

    method CheckParallelDispatch(who: string, d: Dispatch) returns (allowed: bool)
      modifies this
      ensures (history, allowed) == Check(old(history), who, d)
    {
      var log := Of(history, who);
      var kept := [];
      for i := 0 to |log|
        invariant kept == Recent(log[..i], d.at)
      {
        assert log[..i + 1][..i] == log[..i];
        if d.at - log[i].at < WINDOW {
          kept := kept + [log[i]];
        }
      }
      assert log[..|log|] == log;
      history := history[who := kept];
      if kept != [] {
        var gap := d.at - kept[|kept| - 1].at;
        if gap < BATCH_GAP {
          history := history[who := kept + [d]];
          assert history == old(history)[who := kept + [d]];
          return true;
        }
        if gap < SERIAL_GAP {
          return false;
        }
      }
      history := history[who := kept + [d]];
      assert history == old(history)[who := kept + [d]];
      return true;
    }
  }

  // ---- runs -----------------------------------------------------------------------------

  datatype Attempt = Attempt(who: string, dispatch: Dispatch)

  ghost predicate Forward(attempts: seq<Attempt>) {
    forall i, j :: 0 <= i < j < |attempts| ==> attempts[i].dispatch.at <= attempts[j].dispatch.at
  }

  function After(attempts: seq<Attempt>): History {
    if attempts == [] then map[]
    else Check(After(attempts[..|attempts| - 1]), attempts[|attempts| - 1].who, attempts[|attempts| - 1].dispatch).0
  }

  function AfterFull(attempts: seq<Attempt>): History {
    if attempts == [] then map[]
    else CheckFull(AfterFull(attempts[..|attempts| - 1]), attempts[|attempts| - 1].who,
        attempts[|attempts| - 1].dispatch).0
  }

  ghost predicate Sorted(log: seq<Dispatch>) {
    forall i, j :: 0 <= i < j < |log| ==> log[i].at <= log[j].at
  }

  // ---- pruning a sorted log -----------------------------------------------------------------

  lemma {:induction false} RecentOfOld(log: seq<Dispatch>, now: real)
    requires forall i :: 0 <= i < |log| ==> now - log[i].at >= WINDOW
    ensures Recent(log, now) == []
  {
    if log != [] { RecentOfOld(log[..|log| - 1], now); }
  }

  /** Pruning twice is pruning once, at the later time. */
  lemma {:induction false} RecentTwice(log: seq<Dispatch>, now: real, later: real)
    requires now <= later
    ensures Recent(Recent(log, now), later) == Recent(log, later)
  {
    if log != [] {
      var init := log[..|log| - 1];
      RecentTwice(init, now, later);
      if now - log[|log| - 1].at < WINDOW {
        assert (Recent(init, now) + [log[|log| - 1]])[..|Recent(init, now)|] == Recent(init, now);
      } else {
        assert Recent(log, now) == Recent(init, now);
      }
    }
  }

  /** Only the last record matters to the decision, and an old one decides like none. */
  lemma PruningKeepsDecision(log: seq<Dispatch>, now: real)
    requires Sorted(log)
    ensures Refused(Recent(log, now), now) == Refused(log, now)
  {
  }

  /** The pruned memory is the full log seen through the window, at the latest prune. */
  ghost predicate Through(h: History, full: History, now: real) {
    forall who :: Recent(Of(h, who), now) == Recent(Of(full, who), now)
  }

  lemma ThroughLater(h: History, full: History, now: real, later: real)
    requires Through(h, full, now) && now <= later
    ensures Through(h, full, later)
  {
    forall who ensures Recent(Of(h, who), later) == Recent(Of(full, who), later) {
      RecentTwice(Of(h, who), now, later);
      RecentTwice(Of(full, who), now, later);
    }
  }

  lemma RecentSnoc(log: seq<Dispatch>, d: Dispatch, now: real)
    ensures Recent(log + [d], now) == Recent(log, now) + (if now - d.at < WINDOW then [d] else [])
  {
  }

  /** Everything the full log holds for a dispatcher: sorted, up to now, and each two neighbours in
      one batch or at least 30 seconds apart. */
  ghost predicate WellSpaced(log: seq<Dispatch>, now: real) {
    && Sorted(log)
    && (forall i :: 0 <= i < |log| ==> log[i].at <= now)
    && (forall i ::
        0 <= i < |log| - 1 ==> log[i + 1].at - log[i].at < BATCH_GAP || log[i + 1].at - log[i].at >= SERIAL_GAP)
  }

  /** Pruned and full log agree on a dispatcher's decision, and go on agreeing after it. */
  lemma LogsAgree(kept: seq<Dispatch>, log: seq<Dispatch>, d: Dispatch)
    requires Recent(kept, d.at) == Recent(log, d.at) && Sorted(log)
    ensures Refused(Recent(kept, d.at), d.at) == Refused(log, d.at)
    ensures Recent(Recent(kept, d.at), d.at) == Recent(log, d.at)
    ensures Recent(Recent(kept, d.at) + [d], d.at) == Recent(log + [d], d.at)
  {
    PruningKeepsDecision(log, d.at);
    RecentTwice(kept, d.at, d.at);
    RecentSnoc(Recent(kept, d.at), d, d.at);
    RecentSnoc(log, d, d.at);
  }

  lemma StepAgrees(h: History, full: History, who: string, d: Dispatch, now: real)
    requires Through(h, full, now) && now <= d.at && Sorted(Of(full, who))
    ensures Check(h, who, d).1 == CheckFull(full, who, d).1
    ensures Through(Check(h, who, d).0, CheckFull(full, who, d).0, d.at)
  {
    ThroughLater(h, full, now, d.at);
    var h', full' := Check(h, who, d).0, CheckFull(full, who, d).0;
    assert Recent(Of(h, who), d.at) == Recent(Of(full, who), d.at);
    LogsAgree(Of(h, who), Of(full, who), d);
    forall w ensures Recent(Of(h', w), d.at) == Recent(Of(full', w), d.at) {
      if w != who { assert Of(h', w) == Of(h, w) && Of(full', w) == Of(full, w); }
    }
  }

  lemma SpacedSnoc(log: seq<Dispatch>, d: Dispatch, now: real)
    requires WellSpaced(log, now) && now <= d.at && !Refused(log, d.at)
    ensures WellSpaced(log + [d], d.at)
  {
    var all := log + [d];
    forall i | 0 <= i < |all| - 1
      ensures all[i + 1].at - all[i].at < BATCH_GAP || all[i + 1].at - all[i].at >= SERIAL_GAP
    {
      if i + 1 < |log| { assert all[i] == log[i] && all[i + 1] == log[i + 1]; }
    }
  }

  lemma StepSpaced(full: History, who: string, d: Dispatch, now: real, w: string)
    requires WellSpaced(Of(full, w), now) && now <= d.at
    ensures WellSpaced(Of(CheckFull(full, who, d).0, w), d.at)
  {
    if w != who {
      assert Of(CheckFull(full, who, d).0, w) == Of(full, w);
    } else if !Refused(Of(full, who), d.at) {
      SpacedSnoc(Of(full, who), d, now);
    }
  }

  function LastTime(attempts: seq<Attempt>, before: real): real {
    if attempts == [] then before else attempts[|attempts| - 1].dispatch.at
  }

  lemma {:induction false} RunsAgree(attempts: seq<Attempt>, before: real)
    requires Forward(attempts) && forall i :: 0 <= i < |attempts| ==> before <= attempts[i].dispatch.at
    ensures Through(After(attempts), AfterFull(attempts), LastTime(attempts, before))
    ensures forall who :: WellSpaced(Of(AfterFull(attempts), who), LastTime(attempts, before))
  {
    if attempts != [] {
      var init := attempts[..|attempts| - 1];
      var last := attempts[|attempts| - 1];
      assert forall i :: 0 <= i < |init| ==> init[i] == attempts[i];
      RunsAgree(init, before);
      var now := LastTime(init, before);
      assert WellSpaced(Of(AfterFull(init), last.who), now);
      StepAgrees(After(init), AfterFull(init), last.who, last.dispatch, now);
      forall who ensures WellSpaced(Of(AfterFull(attempts), who), last.dispatch.at) {
        StepSpaced(AfterFull(init), last.who, last.dispatch, now, who);
      }
    }
  }

  /** In every run on a forward clock, dropping old history never changes a decision, and a dispatch
      is refused iff its dispatcher's last accepted one is between 1 and 30 seconds old. */
  lemma PruningNeverChangesDecisions(attempts: seq<Attempt>, next: Attempt)
    requires Forward(attempts + [next])
    ensures Check(After(attempts), next.who, next.dispatch).1
        == CheckFull(AfterFull(attempts), next.who, next.dispatch).1
    ensures Check(After(attempts), next.who, next.dispatch).1 <==>
        !Refused(Of(AfterFull(attempts), next.who), next.dispatch.at)
  {
    var all := attempts + [next];
    assert forall i ::
        0 <= i < |attempts| ==> attempts[i] == all[i] && all[i].dispatch.at <= all[|attempts|].dispatch.at;
    var before := if attempts == [] then next.dispatch.at else attempts[0].dispatch.at;
    RunsAgree(attempts, before);
    assert WellSpaced(Of(AfterFull(attempts), next.who), LastTime(attempts, before));
    StepAgrees(After(attempts), AfterFull(attempts), next.who, next.dispatch, LastTime(attempts, before));
  }

  // ---- what the rule accepts, by its own decisions ---------------------------------------------

  predicate Accepted(attempts: seq<Attempt>, i: nat)
    requires i < |attempts|
  {
    Check(After(attempts[..i]), attempts[i].who, attempts[i].dispatch).1
  }

  /** When the dispatcher's latest accepted dispatch took place. */
  function LastAccepted(attempts: seq<Attempt>, who: string): Option<real> {
    if attempts == [] then None
    else
      var k := |attempts| - 1;
      if attempts[k].who == who && Accepted(attempts, k) then Some(attempts[k].dispatch.at)
      else LastAccepted(attempts[..k], who)
  }

  lemma FullLogGrows(full: History, who: string, d: Dispatch, w: string)
    ensures Of(CheckFull(full, who, d).0, w)
         == if w == who && CheckFull(full, who, d).1 then Of(full, w) + [d] else Of(full, w)
  {
  }

  lemma {:induction false} LastAcceptedIsLogged(attempts: seq<Attempt>, who: string)
    requires Forward(attempts)
    ensures var log := Of(AfterFull(attempts), who);
            LastAccepted(attempts, who) == if log == [] then None else Some(log[|log| - 1].at)
  {
    if attempts != [] {
      var init, last := attempts[..|attempts| - 1], attempts[|attempts| - 1];
      assert init + [last] == attempts;
      assert Forward(init);
      LastAcceptedIsLogged(init, who);
      PruningNeverChangesDecisions(init, last);
      FullLogGrows(AfterFull(init), last.who, last.dispatch, who);
      assert Accepted(attempts, |init|) == CheckFull(AfterFull(init), last.who, last.dispatch).1;
    }
  }

  /** In every run on a forward clock a dispatch is accepted iff its dispatcher had none accepted yet, or
      the latest one accepted lies under a second or at least 30 seconds back. */
  lemma AcceptedIff(attempts: seq<Attempt>, next: Attempt)
    requires Forward(attempts + [next])
    ensures Check(After(attempts), next.who, next.dispatch).1 <==>
              match LastAccepted(attempts, next.who)
              case None => true
              case Some(at) => next.dispatch.at - at < 1.0 || next.dispatch.at - at >= 30.0
  {
    var all := attempts + [next];
    assert forall i :: 0 <= i < |attempts| ==> attempts[i] == all[i];
    LastAcceptedIsLogged(attempts, next.who);
    PruningNeverChangesDecisions(attempts, next);
  }

  /** Attempts i and j are accepted dispatches of one dispatcher with none accepted in between. */
  ghost predicate Consecutive(attempts: seq<Attempt>, i: nat, j: nat) {
    && i < j < |attempts| && attempts[i].who == attempts[j].who && Accepted(attempts, i) && Accepted(attempts, j)
    && forall k :: i < k < j && attempts[k].who == attempts[i].who ==> !Accepted(attempts, k)
  }

  lemma {:induction false} LastAcceptedIs(attempts: seq<Attempt>, i: nat)
    requires i < |attempts| && Accepted(attempts, i)
    requires forall k :: i < k < |attempts| && attempts[k].who == attempts[i].who ==> !Accepted(attempts, k)
    ensures LastAccepted(attempts, attempts[i].who) == Some(attempts[i].dispatch.at)
  {
    var init := attempts[..|attempts| - 1];
    if i < |init| {
      assert forall k :: 0 <= k < |init| ==> init[..k] == attempts[..k] && init[k] == attempts[k];
      LastAcceptedIs(init, i);
    }
  }

  /** Any two consecutive accepted dispatches of one dispatcher are less than a second or at least
      30 seconds apart. */
  lemma AcceptedDispatchesAreSpaced(attempts: seq<Attempt>, i: nat, j: nat)
    requires Forward(attempts) && Consecutive(attempts, i, j)
    ensures var gap := attempts[j].dispatch.at - attempts[i].dispatch.at; gap < 1.0 || gap >= 30.0
  {
    var before := attempts[..j];
    assert forall k :: 0 <= k < j ==> before[..k] == attempts[..k] && before[k] == attempts[k];
    LastAcceptedIs(before, i);
    var upTo := before + [attempts[j]];
    assert forall k :: 0 <= k <= j ==> upTo[k] == attempts[k];
    AcceptedIff(before, attempts[j]);
  }

  // ---- what is remembered ------------------------------------------------------------------------

  lemma {:induction false} RecentIsWindow(log: seq<Dispatch>, now: real, d: Dispatch)
    ensures d in Recent(log, now) <==> d in log && now - d.at < 60.0
  {
    if log != [] {
      var init := log[..|log| - 1];
      RecentIsWindow(init, now, d);
      assert log == init + [log[|log| - 1]];
    }
  }

  lemma {:induction false} LoggedIsAccepted(attempts: seq<Attempt>, who: string, d: Dispatch)
    requires Forward(attempts)
    ensures d in Of(AfterFull(attempts), who) <==>
              exists i :: 0 <= i < |attempts| && attempts[i] == Attempt(who, d) && Accepted(attempts, i)
  {
    if attempts != [] {
      var init, last := attempts[..|attempts| - 1], attempts[|attempts| - 1];
      assert init + [last] == attempts;
      assert Forward(init);
      assert forall i :: 0 <= i < |init| ==> init[..i] == attempts[..i] && init[i] == attempts[i];
      LoggedIsAccepted(init, who, d);
      PruningNeverChangesDecisions(init, last);
      FullLogGrows(AfterFull(init), last.who, last.dispatch, who);
      assert Accepted(attempts, |init|) == CheckFull(AfterFull(init), last.who, last.dispatch).1;
    }
  }

  /** Right after an attempt the dispatcher's history is exactly its dispatches accepted in the last 60 seconds. */
  lemma RemembersLastMinute(attempts: seq<Attempt>, d: Dispatch)
    requires Forward(attempts) && attempts != []
    ensures var last := attempts[|attempts| - 1];
            d in Of(After(attempts), last.who) <==>
              && last.dispatch.at - d.at < 60.0
              && exists i :: 0 <= i < |attempts| && attempts[i] == Attempt(last.who, d) && Accepted(attempts, i)
  {
    var last := attempts[|attempts| - 1];
    RunsAgree(attempts, attempts[0].dispatch.at);
    LoggedIsAccepted(attempts, last.who, d);
    RecentIsWindow(Of(AfterFull(attempts), last.who), last.dispatch.at, d);
    RecentIsWindow(Of(After(attempts), last.who), last.dispatch.at, d);
    RecentIsWindow(Of(After(attempts[..|attempts| - 1]), last.who), last.dispatch.at, d);
  }
}
