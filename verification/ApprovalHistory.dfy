/** What an approval's status is after any history of queue operations (ystar/adapters/connector.py). */
module ApprovalHistory {
  import opened Common
  import opened ApprovalLog

  /** Check stands for check_status and for the status query inside resume_after_approval. */
  datatype Op =
    | Submit(approval: Approval)
    | Approve(id: string, operator: string, note: string)
    | Deny(id: string, operator: string, note: string)
    | Check(id: string, now: real)
    | ListAll(now: real)

  /** One operation on the map the file stands for: the contracts of the queue's methods. */
  function Apply(items: seq<Approval>, op: Op): seq<Approval> {
    match op
    case Submit(a) => Put(items, a)
    case Approve(id, operator, note) => SetStatus(items, id, APPROVED, operator, note)
    case Deny(id, operator, note) => SetStatus(items, id, DENIED, operator, note)
    case Check(id, now) => Observe(items, id, now)
    case ListAll(now) => ExpireAll(items, now)
  }

  function Run(items: seq<Approval>, ops: seq<Op>): seq<Approval> {
    if ops == [] then items else Apply(Run(items, ops[..|ops| - 1]), ops[|ops| - 1])
  }

  // ---- the history's own answer ----------------------------------------------------

  predicate Decides(op: Op, id: string) {
    (op.Approve? || op.Deny?) && op.id == id
  }

  /** The latest approval or denial of the id, if any. */
  function LatestDecision(ops: seq<Op>, id: string): Option<string> {
    if ops == [] then None
    else
      var last := ops[|ops| - 1];
      if Decides(last, id) then Some(if last.Approve? then APPROVED else DENIED)
      else LatestDecision(ops[..|ops| - 1], id)
  }

  /** Someone looked at the id after its deadline. */
  predicate ObservedLate(ops: seq<Op>, id: string, deadline: real) {
    exists i :: 0 <= i < |ops| && LooksAt(ops[i], id, deadline)
  }

  predicate LooksAt(op: Op, id: string, deadline: real) {
    (op.Check? && op.id == id && op.now > deadline) || (op.ListAll? && op.now > deadline)
  }

  predicate Resubmits(ops: seq<Op>, id: string) {
    exists i :: 0 <= i < |ops| && ops[i].Submit? && ops[i].approval.id == id
  }

  /** What becomes of a status: the latest decision, else expired if it was pending and looked at late. */
  function Verdict(ops: seq<Op>, id: string, deadline: real, was: string): string {
    if LatestDecision(ops, id).Some? then LatestDecision(ops, id).value
    else if was == PENDING && ObservedLate(ops, id, deadline) then EXPIRED
    else was
  }

  // ---- it is what the file holds ---------------------------------------------------------

  lemma ApplyKeepsUnique(items: seq<Approval>, op: Op)
    requires UniqueIds(items)
    ensures UniqueIds(Apply(items, op))
  {
  }

  lemma {:induction false} RunKeepsUnique(items: seq<Approval>, ops: seq<Op>)
    requires UniqueIds(items)
    ensures UniqueIds(Run(items, ops))
  {
    if ops != [] {
      RunKeepsUnique(items, ops[..|ops| - 1]);
      ApplyKeepsUnique(Run(items, ops[..|ops| - 1]), ops[|ops| - 1]);
    }
  }

  /** What one operation does to the record at position k, when it is not a resubmission of its id. */
  lemma ApplyAt(items: seq<Approval>, op: Op, k: nat)
    requires UniqueIds(items) && k < |items| && !(op.Submit? && op.approval.id == items[k].id)
    ensures k < |Apply(items, op)| && Apply(items, op)[k].id == items[k].id
        && Apply(items, op)[k].request == items[k].request
    ensures Apply(items, op)[k] ==
              if Decides(op, items[k].id) then
                items[k].(status := if op.Approve? then APPROVED else DENIED,
                          operator := Some(op.operator), note := Some(op.note))
              else if items[k].status == PENDING && LooksAt(op, items[k].id, items[k].request.expiresAt) then
                items[k].(status := EXPIRED, operator := Some("system"), note := Some(""))
              else items[k]
  {
  }

  /** After any history without a resubmission a record holds exactly the latest approval or denial;
      else expired if it was pending and someone looked after its deadline; else what it held. */
  lemma {:induction false} StatusIsHistory(items: seq<Approval>, ops: seq<Op>, k: nat)
    requires UniqueIds(items) && k < |items| && !Resubmits(ops, items[k].id)
    ensures k < |Run(items, ops)| && Run(items, ops)[k].id == items[k].id
        && Run(items, ops)[k].request == items[k].request
    ensures Run(items, ops)[k].status == Verdict(ops, items[k].id, items[k].request.expiresAt, items[k].status)
  {
    if ops != [] {
      var init := ops[..|ops| - 1];
      var last := ops[|ops| - 1];
      assert forall i :: 0 <= i < |init| ==> init[i] == ops[i];
      StatusIsHistory(items, init, k);
      RunKeepsUnique(items, init);
      ApplyAt(Run(items, init), last, k);
      VerdictSnoc(init, last, items[k].id, items[k].request.expiresAt, items[k].status);
      assert ops == init + [last];
    }
  }

  lemma VerdictSnoc(ops: seq<Op>, op: Op, id: string, deadline: real, was: string)
    ensures Verdict(ops + [op], id, deadline, was) ==
              if Decides(op, id) then (if op.Approve? then APPROVED else DENIED)
              else if Verdict(ops, id, deadline, was) == PENDING && LooksAt(op, id, deadline) then EXPIRED
              else Verdict(ops, id, deadline, was)
  {
    assert (ops + [op])[..|ops|] == ops;
    DecisionsAreFinalWords(ops, id);
    ObservedLateSnoc(ops, op, id, deadline);
  }

  lemma ObservedLateSnoc(ops: seq<Op>, op: Op, id: string, deadline: real)
    ensures ObservedLate(ops + [op], id, deadline) <==> ObservedLate(ops, id, deadline) || LooksAt(op, id, deadline)
  {
    var all := ops + [op];
    assert all[|ops|] == op;
    if ObservedLate(ops, id, deadline) {
      var i :| 0 <= i < |ops| && LooksAt(ops[i], id, deadline);
      assert LooksAt(all[i], id, deadline);
    }
  }

  lemma {:induction false} DecisionsAreFinalWords(ops: seq<Op>, id: string)
    ensures LatestDecision(ops, id) != Some(PENDING)
    ensures LatestDecision(ops, id).Some? ==> LatestDecision(ops, id).value in {APPROVED, DENIED}
  {
    if ops != [] { DecisionsAreFinalWords(ops[..|ops| - 1], id); }
  }

  /** check_status over a whole run: the record was submitted under a fresh id after `before`, and
      `after` followed. The answer is the history's verdict, with the query itself as the last look. */
  lemma CheckStatusIsHistory(items: seq<Approval>, before: seq<Op>, a: Approval, after: seq<Op>, now: real)
    requires UniqueIds(items) && a.status == PENDING && !Resubmits(after, a.id)
    requires !Has(Run(items, before), a.id)
    ensures StatusAt(Run(Run(items, before + [Submit(a)]), after), a.id, now)
         == Some(Verdict(after + [Check(a.id, now)], a.id, a.request.expiresAt, PENDING))
    ensures now > a.request.expiresAt ==>
        StatusAt(Run(Run(items, before + [Submit(a)]), after), a.id, now) != Some(PENDING)
    ensures StatusAt(Run(Run(items, before + [Submit(a)]), after), a.id, now) == Some(APPROVED)
         <==> LatestDecision(after, a.id) == Some(APPROVED)
  {
    assert (before + [Submit(a)])[..|before|] == before;
    RunKeepsUnique(items, before);
    var start := Run(items, before + [Submit(a)]);
    var k := |Run(items, before)|;
    assert start == Run(items, before) + [a] && start[k] == a;
    RunKeepsUnique(items, before + [Submit(a)]);
    StatusIsHistory(start, after, k);
    RunKeepsUnique(start, after);
    IndexOfUnique(Run(start, after), k);
    DecisionsAreFinalWords(after, a.id);
    VerdictSnoc(after, Check(a.id, now), a.id, a.request.expiresAt, PENDING);
  }

  /** The queue holds the id after any run without a resubmission, at the same place. */
  lemma StaysAt(items: seq<Approval>, ops: seq<Op>, id: string)
    requires UniqueIds(items) && Has(items, id) && !Resubmits(ops, id)
    ensures var k := IndexOf(items, id);
            && Has(Run(items, ops), id) && IndexOf(Run(items, ops), id) == k
            && Run(items, ops)[k].request == items[k].request
            && Run(items, ops)[k].status == Verdict(ops, id, items[k].request.expiresAt, items[k].status)
  {
    var k := IndexOf(items, id);
    StatusIsHistory(items, ops, k);
    RunKeepsUnique(items, ops);
    IndexOfUnique(Run(items, ops), k);
  }

  /** Once the queue has answered a query with anything but pending, no later query is answered with
      pending, whatever happens in between and whatever its clock shows. */
  lemma NeverPendingAgain(items: seq<Approval>, id: string, asked: real, more: seq<Op>, now: real)
    requires UniqueIds(items) && Has(items, id) && !Resubmits(more, id)
    requires StatusAt(items, id, asked) != Some(PENDING)
    ensures StatusAt(Run(Observe(items, id, asked), more), id, now) != Some(PENDING)
  {
    var seen := Observe(items, id, asked);
    ApplyKeepsUnique(items, Check(id, asked));
    IndexOfUnique(seen, IndexOf(items, id));
    StaysAt(seen, more, id);
    DecisionsAreFinalWords(more, id);
  }

  /** The deadline alone denies nothing. An approval counts whatever came before it, a denial, an observed
      expiry or a passed deadline included: every later answer is approved iff the latest decision since
      then, if any, is not a denial. */
  lemma ApprovalAlwaysWins(items: seq<Approval>, before: seq<Op>, id: string, operator: string, note: string,
      more: seq<Op>, now: real)
    requires UniqueIds(items) && Has(Run(items, before), id) && !Resubmits(more, id)
    ensures StatusAt(Run(Run(items, before + [Approve(id, operator, note)]), more), id, now) == Some(APPROVED)
       <==> LatestDecision(more, id) != Some(DENIED)
  {
    var op := Approve(id, operator, note);
    var mid := Run(items, before);
    var k := IndexOf(mid, id);
    assert (before + [op])[..|before|] == before;
    RunKeepsUnique(items, before);
    RunKeepsUnique(items, before + [op]);
    ApplyAt(mid, op, k);
    var start := Run(items, before + [op]);
    assert start == Apply(mid, op) && start[k].id == id && start[k].status == APPROVED;
    IndexOfUnique(start, k);
    StaysAt(start, more, id);
    DecisionsAreFinalWords(more, id);
  }

  /** In particular a request denied and long overdue is approved by one late approval. */
  lemma LateApprovalCounts(a: Approval, operator: string, now: real)
    requires a.status == PENDING && now > a.request.expiresAt
    ensures var ops := [Deny(a.id, operator, ""), Check(a.id, now), Approve(a.id, operator, "")];
            StatusAt(Run([a], ops), a.id, now) == Some(APPROVED)
  {
    var ops := [Deny(a.id, operator, ""), Check(a.id, now), Approve(a.id, operator, "")];
    var before := ops[..2];
    assert ops == before + [Approve(a.id, operator, "")];
    assert !Resubmits(before, a.id) && !Resubmits([], a.id);
    assert IndexOf([a], a.id) == 0;
    StaysAt([a], before, a.id);
    ApprovalAlwaysWins([a], before, a.id, operator, "", [], now);
    assert Run(Run([a], ops), []) == Run([a], ops);
  }

  // ---- the whole history of a queue that starts empty ------------------------------------------------

  /** A submission and what happened since. */
  datatype Standing = Standing(approval: Approval, since: seq<Op>)

  predicate Submits(op: Op, id: string) { op.Submit? && op.approval.id == id }

  /** The latest submission of the id. */
  function LatestSubmission(ops: seq<Op>, id: string): Option<Standing> {
    if ops == [] then None
    else
      var last := ops[|ops| - 1];
      var before := LatestSubmission(ops[..|ops| - 1], id);
      if Submits(last, id) then Some(Standing(last.approval, []))
      else if before.None? then None
      else Some(Standing(before.value.approval, before.value.since + [last]))
  }

  lemma {:induction false} LatestSubmissionIs(ops: seq<Op>, id: string)
    ensures LatestSubmission(ops, id).Some? <==> Resubmits(ops, id)
    ensures LatestSubmission(ops, id).Some? ==>
              exists i ::
                  0 <= i < |ops| && Submits(ops[i], id) && ops[i].approval == LatestSubmission(ops, id).value.approval
  {
    if ops != [] {
      var init := ops[..|ops| - 1];
      LatestSubmissionIs(init, id);
      assert forall i :: 0 <= i < |init| ==> init[i] == ops[i];
      assert Submits(ops[|init|], id) ==> Resubmits(ops, id);
    }
  }

  /** The record of the id is what became of its latest submission. */
  ghost predicate Stands(items: seq<Approval>, id: string, h: Option<Standing>) {
    if h.None? then !Has(items, id)
    else
      && Has(items, id)
      && var r, a := items[IndexOf(items, id)], h.value.approval;
         r.request == a.request && r.status == Verdict(h.value.since, id, a.request.expiresAt, a.status)
  }

  lemma StandsAfter(items: seq<Approval>, id: string, h: Standing, op: Op)
    requires UniqueIds(items) && Stands(items, id, Some(h)) && !Submits(op, id)
    ensures Stands(Apply(items, op), id, Some(Standing(h.approval, h.since + [op])))
  {
    var k := IndexOf(items, id);
    ApplyKeepsUnique(items, op);
    ApplyAt(items, op, k);
    IndexOfUnique(Apply(items, op), k);
    VerdictSnoc(h.since, op, id, h.approval.request.expiresAt, h.approval.status);
  }

  lemma SubmissionStands(items: seq<Approval>, a: Approval)
    ensures Stands(Put(items, a), a.id, Some(Standing(a, [])))
  {
    PutPlaces(items, a, a.id);
  }

  lemma AbsentStays(items: seq<Approval>, op: Op, id: string)
    requires !Submits(op, id) && !Has(items, id)
    ensures !Has(Apply(items, op), id)
  {
    if op.Submit? { PutPlaces(items, op.approval, id); }
  }

  /** After any history of a queue that starts empty, resubmissions included. */
  lemma {:induction false} RecordIsHistory(ops: seq<Op>, id: string)
    ensures UniqueIds(Run([], ops)) && Stands(Run([], ops), id, LatestSubmission(ops, id))
  {
    RunKeepsUnique([], ops);
    if ops != [] {
      var init, last := ops[..|ops| - 1], ops[|ops| - 1];
      RecordIsHistory(init, id);
      if Submits(last, id) {
        SubmissionStands(Run([], init), last.approval);
      } else if LatestSubmission(init, id).None? {
        AbsentStays(Run([], init), last, id);
      } else {
        StandsAfter(Run([], init), id, LatestSubmission(init, id).value, last);
      }
    }
  }

  /** check_status after any history of a queue that starts empty: no answer iff no operation submitted the id,
      else the verdict on what happened since its latest submission, this query being the last look. */
  lemma AnswersAreHistory(ops: seq<Op>, id: string, now: real)
    ensures StatusAt(Run([], ops), id, now) == None <==> forall i :: 0 <= i < |ops| ==> !Submits(ops[i], id)
    ensures LatestSubmission(ops, id).Some? ==>
              var h := LatestSubmission(ops, id).value;
              StatusAt(Run([], ops), id, now)
                == Some(Verdict(h.since + [Check(id, now)], id, h.approval.request.expiresAt, h.approval.status))
  {
    RecordIsHistory(ops, id);
    LatestSubmissionIs(ops, id);
    if LatestSubmission(ops, id).Some? {
      var h := LatestSubmission(ops, id).value;
      VerdictSnoc(h.since, Check(id, now), id, h.approval.request.expiresAt, h.approval.status);
    }
  }

  /** When requests are submitted as pending, the status that lets a resumption proceed is answered iff the
      id was submitted and the latest decision since then is an approval. */
  lemma ResumesIff(ops: seq<Op>, id: string, now: real)
    requires forall i :: 0 <= i < |ops| && ops[i].Submit? ==> ops[i].approval.status == "pending"
    ensures StatusAt(Run([], ops), id, now) == Some("approved") <==>
              LatestSubmission(ops, id).Some?
                  && LatestDecision(LatestSubmission(ops, id).value.since, id) == Some("approved")
  {
    AnswersAreHistory(ops, id, now);
    LatestSubmissionIs(ops, id);
    if LatestSubmission(ops, id).Some? {
      var h := LatestSubmission(ops, id).value;
      VerdictSnoc(h.since, Check(id, now), id, h.approval.request.expiresAt, h.approval.status);
      DecisionsAreFinalWords(h.since, id);
    }
  }

  /** One request's life in words: pending up to its deadline, then expired, unless denied or approved. */
  lemma OneRequestsLife(a: Approval, operator: string, note: string, now: real)
    requires a.status == "pending"
    ensures StatusAt(Run([], [Submit(a)]), a.id, now)
        == Some(if now <= a.request.expiresAt then "pending" else "expired")
    ensures StatusAt(Run([], [Submit(a), Deny(a.id, operator, note)]), a.id, now) == Some("denied")
    ensures StatusAt(Run([], [Submit(a), Approve(a.id, operator, note)]), a.id, now) == Some("approved")
  {
    assert [Submit(a)][..0] == [];
    assert Run([], [Submit(a)]) == [a] && IndexOf([a], a.id) == 0;
    assert [Submit(a), Deny(a.id, operator, note)][..1] == [Submit(a)];
    assert [Submit(a), Approve(a.id, operator, note)][..1] == [Submit(a)];
  }

  // ---- nothing is lost --------------------------------------------------------------------

  ghost predicate FreshSubmits(items: seq<Approval>, ops: seq<Op>) {
    ops == [] ||
    (&& FreshSubmits(items, ops[..|ops| - 1])
     && (ops[|ops| - 1].Submit? ==> !Has(Run(items, ops[..|ops| - 1]), ops[|ops| - 1].approval.id)))
  }

  /** No run with fresh ids loses a record or touches anything but status, operator and note. */
  lemma {:induction false} RunsLoseNothing(items: seq<Approval>, ops: seq<Op>)
    requires UniqueIds(items) && FreshSubmits(items, ops)
    ensures Keeps(items, Run(items, ops))
  {
    if ops != [] {
      var init := ops[..|ops| - 1];
      RunsLoseNothing(items, init);
      RunKeepsUnique(items, init);
      var mid := Run(items, init);
      forall i | 0 <= i < |items|
        ensures i < |Run(items, ops)| && Run(items, ops)[i].id == items[i].id
            && Run(items, ops)[i].request == items[i].request
      {
        IndexOfUnique(mid, i);
        ApplyAt(mid, ops[|ops| - 1], i);
      }
    }
  }

  /** A submission keeps every record iff its id is new, or its request equals the one it replaces. */
  lemma SubmitKeepsIff(items: seq<Approval>, a: Approval)
    ensures Keeps(items, Apply(items, Submit(a))) <==>
              (Has(items, a.id) ==> items[IndexOf(items, a.id)].request == a.request)
  {
  }
}
