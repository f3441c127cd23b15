/** The boot protocol of a session: lifecycle events seen once per process, and the gate that denies
    other calls until they are all there (ystar/adapters/boundary_enforcer.py). */
module SessionGate {
  import opened Common

  const SESSION_START := "session_start"
  const CONTINUATION_LOADED := "continuation_loaded"
  const OBLIGATION_CHECK := "obligation_check"
  const BOOT_COMPLETED := "boot_protocol_completed"

  const REQUIRED: set<string> := { SESSION_START, CONTINUATION_LOADED, OBLIGATION_CHECK }

  const OBLIGATIONS_TOOL := "mcp__gov-mcp__gov_obligations"

  const WHITELIST_TOOLS: set<string> := {
    OBLIGATIONS_TOOL, "mcp__gov-mcp__gov_session_info", "mcp__gov-mcp__gov_health",
    "mcp__gov-mcp__gov_check", "mcp__gov-mcp__gov_doctor", "ToolSearch" }

  /** A tool call: its command and its file path, backslashes already turned round. */
  datatype Call = Call(tool: string, command: string, filePath: string)

  // ---- what the detectors and the whitelist look at -------------------------------------

  predicate Contains(s: string, t: string) { StartsWith(s, t) || (s != "" && Contains(s[1..], t)) }

  function LowerChar(c: char): char { if 'A' <= c <= 'Z' then c - 'A' + 'a' else c }

  function Lower(s: string): string { seq(|s|, i requires 0 <= i < |s| => LowerChar(s[i])) }

  predicate LoadsContinuation(c: Call) {
    c.tool == "Read" && (EndsWith(c.filePath, "memory/continuation.json")
        || EndsWith(c.filePath, "memory/continuation.md"))
  }

  predicate ChecksObligations(c: Call) {
    c.tool == OBLIGATIONS_TOOL || (c.tool == "Read" && Contains(Lower(c.filePath), "omission"))
  }

  predicate Whitelisted(c: Call) {
    || c.tool in WHITELIST_TOOLS
    || (c.tool == "Bash" && (Contains(c.command, "governance_boot.sh") || Contains(c.command, "session_close_yml.py")))
    || LoadsContinuation(c)
    || (c.tool == "Read" && (EndsWith(c.filePath, "memory/session_handoff.md")
        || EndsWith(c.filePath, ".ystar_session.json")))
  }

  /** A session the gate applies to. */
  predicate Real(sid: string) { sid != "" && sid != "unknown" && !StartsWith(sid, "test_") }

  // ---- one call ------------------------------------------------------------------------------

  /** What the process remembers, and the lifecycle events it has written, in order. */
  datatype State = State(seen: map<string, set<string>>, emitted: seq<(string, string)>)

  /** First use of a session takes over the lifecycle events the store has for it. */
  function Hydrate(s: State, sid: string, stored: set<string>): State {
    if sid in s.seen then s else s.(seen := s.seen[sid := stored * (REQUIRED + {BOOT_COMPLETED})])
  }

  function SeenOf(s: State, sid: string): set<string> { if sid in s.seen then s.seen[sid] else {} }

  function EmitOnce(s: State, sid: string, event: string): State {
    if event in SeenOf(s, sid) then s
    else State(s.seen[sid := SeenOf(s, sid) + {event}], s.emitted + [(sid, event)])
  }

  function EmitIf(s: State, sid: string, event: string, when: bool): State {
    if when then EmitOnce(s, sid, event) else s
  }

  function Detect(s: State, sid: string, c: Call, stored: set<string>): State {
    var s1 := EmitIf(Hydrate(s, sid, stored), sid, CONTINUATION_LOADED, LoadsContinuation(c));
    var s2 := EmitIf(s1, sid, OBLIGATION_CHECK, ChecksObligations(c));
    EmitIf(s2, sid, BOOT_COMPLETED, REQUIRED <= SeenOf(s2, sid))
  }

  function Gate(s: State, sid: string, c: Call): bool {
    !Real(sid) || BOOT_COMPLETED in SeenOf(s, sid) || Whitelisted(c) || REQUIRED <= SeenOf(s, sid)
  }

  /** One call of a session: the new memory and whether the gate lets it through. */
  function OnCall(s: State, sid: string, c: Call, stored: set<string>): (State, bool) {
    var t := Detect(s, sid, c, stored);
    (t, Gate(t, sid, c))
  }

  // ---- the module-level state as a class ---------------------------------------------------------

  class ProtocolTracker {
    var protocolState: map<string, set<string>>
    ghost var emitted: seq<(string, string)>

    ghost function View(): State
      reads this
    {
      State(protocolState, emitted)
    }

    constructor ()
      ensures View() == State(map[], [])
    {
      protocolState, emitted := map[], [];
    }

    method HydrateProtocolState(sid: string, stored: set<string>)
      modifies this
      ensures View() == Hydrate(old(View()), sid, stored)
    {
      if sid in protocolState {
        return;
      }
      protocolState := protocolState[sid := stored * (REQUIRED + {BOOT_COMPLETED})];
    }

    method EmitEvent(sid: string, event: string)
      modifies this
      ensures View() == EmitOnce(old(View()), sid, event)
    {
      var seen := if sid in protocolState then protocolState[sid] else {};
      if event in seen {
        return;
      }
      protocolState := protocolState[sid := seen + {event}];
      emitted := emitted + [(sid, event)];
    }

    method CheckBehavior(sid: string, c: Call, stored: set<string>) returns (allowed: bool)
      modifies this
      ensures (View(), allowed) == OnCall(old(View()), sid, c, stored)
    {
      HydrateProtocolState(sid, stored);
      if LoadsContinuation(c) {
        EmitEvent(sid, CONTINUATION_LOADED);
      }
      if ChecksObligations(c) {
        EmitEvent(sid, OBLIGATION_CHECK);
      }
      var seen := if sid in protocolState then protocolState[sid] else {};
      if REQUIRED <= seen && BOOT_COMPLETED !in seen {
        EmitEvent(sid, BOOT_COMPLETED);
      }
      allowed := CheckSessionStartProtocolCompleted(sid, c);
    }

    method CheckSessionStartProtocolCompleted(sid: string, c: Call) returns (allowed: bool)
      ensures allowed == Gate(View(), sid, c)
    {
      if sid == "" || sid == "unknown" || StartsWith(sid, "test_") {
        return true;
      }
      var seen := if sid in protocolState then protocolState[sid] else {};
      if BOOT_COMPLETED in seen {
        return true;
      }
      if Whitelisted(c) {
        return true;
      }
      return SESSION_START in seen && CONTINUATION_LOADED in seen && OBLIGATION_CHECK in seen;
    }
  }

  // ---- runs of one process --------------------------------------------------------------------------

  datatype Event = Event(sid: string, call: Call, stored: set<string>)

  function After(s: State, events: seq<Event>): State {
    if events == [] then s
    else
      var last := events[|events| - 1];
      OnCall(After(s, events[..|events| - 1]), last.sid, last.call, last.stored).0
  }

  /** Written events are remembered and were written once; remembered ones come with every earlier one. */
  ghost predicate Inv(s: State) {
    && (forall i :: 0 <= i < |s.emitted| ==> s.emitted[i].1 in SeenOf(s, s.emitted[i].0))
    && (forall i, j :: 0 <= i < j < |s.emitted| ==> s.emitted[i] != s.emitted[j])
  }

  /** t remembers all that s does, and has written what s had written. */
  ghost predicate Extends(s: State, t: State) {
    && (forall x :: SeenOf(s, x) <= SeenOf(t, x))
    && (forall x :: x in s.seen ==> x in t.seen)
    && s.emitted <= t.emitted
  }

  /** Only the session's own set changed, by at most these events. */
  ghost predicate Adds(s: State, t: State, sid: string, events: set<string>) {
    && SeenOf(t, sid) <= SeenOf(s, sid) + events
    && (forall x :: x != sid ==> SeenOf(t, x) == SeenOf(s, x))
  }

  lemma EmitKeeps(s: State, sid: string, event: string, when: bool)
    requires Inv(s)
    ensures var t := EmitIf(s, sid, event, when);
            Inv(t) && Extends(s, t) && Adds(s, t, sid, {event}) && (when ==> event in SeenOf(t, sid))
                && (!when ==> t == s)
  {
  }

  lemma DetectKeeps(s: State, sid: string, c: Call)
    requires Inv(s) && sid in s.seen
    ensures var s1 := EmitIf(s, sid, CONTINUATION_LOADED, LoadsContinuation(c));
            var s2 := EmitIf(s1, sid, OBLIGATION_CHECK, ChecksObligations(c));
            && Inv(s2) && Extends(s, s2) && Adds(s, s2, sid, {CONTINUATION_LOADED, OBLIGATION_CHECK})
            && (LoadsContinuation(c) ==> CONTINUATION_LOADED in SeenOf(s2, sid))
            && (ChecksObligations(c) ==> OBLIGATION_CHECK in SeenOf(s2, sid))
  {
    EmitKeeps(s, sid, CONTINUATION_LOADED, LoadsContinuation(c));
    EmitKeeps(EmitIf(s, sid, CONTINUATION_LOADED, LoadsContinuation(c)), sid, OBLIGATION_CHECK, ChecksObligations(c));
  }

  lemma CallKeeps(s: State, sid: string, c: Call, stored: set<string>)
    requires Inv(s)
    ensures var t := OnCall(s, sid, c, stored).0;
            && Inv(t) && sid in t.seen && Extends(s, t)
            && Adds(Hydrate(s, sid, stored), t, sid, {CONTINUATION_LOADED, OBLIGATION_CHECK, BOOT_COMPLETED})
            && (BOOT_COMPLETED in SeenOf(t, sid) <==>
                BOOT_COMPLETED in SeenOf(Hydrate(s, sid, stored), sid) || REQUIRED <= SeenOf(t, sid))
            && (LoadsContinuation(c) ==> CONTINUATION_LOADED in SeenOf(t, sid))
            && (ChecksObligations(c) ==> OBLIGATION_CHECK in SeenOf(t, sid))
  {
    var s0 := Hydrate(s, sid, stored);
    DetectKeeps(s0, sid, c);
    var s2 := EmitIf(EmitIf(s0, sid, CONTINUATION_LOADED, LoadsContinuation(c)), sid, OBLIGATION_CHECK,
        ChecksObligations(c));
    EmitKeeps(s2, sid, BOOT_COMPLETED, REQUIRED <= SeenOf(s2, sid));
    assert Extends(s, s0);
  }

  /** Over any run the seen sets only grow and no session's event is written twice. */
  lemma {:induction false} SeenOnlyGrows(s: State, events: seq<Event>)
    requires Inv(s)
    ensures Inv(After(s, events)) && Extends(s, After(s, events))
  {
    if events != [] {
      var last := events[|events| - 1];
      SeenOnlyGrows(s, events[..|events| - 1]);
      CallKeeps(After(s, events[..|events| - 1]), last.sid, last.call, last.stored);
    }
  }

  /** From any state that has seen session_start, reading the continuation and asking for the
      obligations, in any order and with anything in between, opens the gate for good. */
  lemma TwoCallsOpenTheGate(s: State, events: seq<Event>, i: nat, j: nat, sid: string, c: Call, stored: set<string>)
    requires Inv(s) && sid in s.seen && SESSION_START in s.seen[sid]
    requires i < |events| && j < |events| && events[i].sid == sid == events[j].sid
    requires LoadsContinuation(events[i].call) && ChecksObligations(events[j].call)
    ensures OnCall(After(s, events), sid, c, stored).1
  {
    SeenAfterCall(s, events, i);
    SeenAfterCall(s, events, j);
    SeenOnlyGrows(s, events);
    CallKeeps(After(s, events), sid, c, stored);
  }

  /** What the i-th call made seen stays seen. */
  lemma {:induction false} SeenAfterCall(s: State, events: seq<Event>, i: nat)
    requires Inv(s) && i < |events|
    ensures LoadsContinuation(events[i].call) ==> CONTINUATION_LOADED in SeenOf(After(s, events), events[i].sid)
    ensures ChecksObligations(events[i].call) ==> OBLIGATION_CHECK in SeenOf(After(s, events), events[i].sid)
  {
    var init := events[..|events| - 1];
    var last := events[|events| - 1];
    SeenOnlyGrows(s, init);
    CallKeeps(After(s, init), last.sid, last.call, last.stored);
    if i < |init| {
      SeenAfterCall(s, init, i);
    }
  }

  /** Two whitelisted calls are enough: one of each kind exists. */
  lemma WhitelistedPairExists()
    ensures LoadsContinuation(Call("Read", "", "memory/continuation.json"))
        && Whitelisted(Call("Read", "", "memory/continuation.json"))
    ensures ChecksObligations(Call(OBLIGATIONS_TOOL, "", "")) && Whitelisted(Call(OBLIGATIONS_TOOL, "", ""))
  {
  }

  // ---- the gate as a function of the process's history ------------------------------------------------

  const EMPTY := State(map[], [])

  predicate LookedUp(events: seq<Event>, sid: string) {
    exists i :: 0 <= i < |events| && events[i].sid == sid
  }

  /** What the store held for the session when the process first looked it up. */
  function FirstStored(events: seq<Event>, sid: string): set<string> {
    if events == [] then {}
    else
      var init, last := events[..|events| - 1], events[|events| - 1];
      if last.sid == sid && !LookedUp(init, sid) then last.stored else FirstStored(init, sid)
  }

  /** The process itself read the session's continuation, or asked for its obligations. */
  predicate Did(events: seq<Event>, sid: string, event: string) {
    exists i :: 0 <= i < |events| && Does(events[i], sid, event)
  }

  predicate Does(e: Event, sid: string, event: string) {
    && e.sid == sid
    && ((event == CONTINUATION_LOADED && LoadsContinuation(e.call))
        || (event == OBLIGATION_CHECK && ChecksObligations(e.call)))
  }

  /** A boot event the history accounts for. */
  predicate Known(events: seq<Event>, sid: string, event: string) {
    event in FirstStored(events, sid) || Did(events, sid, event)
  }

  lemma HistorySnoc(events: seq<Event>, e: Event, sid: string)
    ensures LookedUp(events + [e], sid) <==> LookedUp(events, sid) || e.sid == sid
    ensures forall event :: Did(events + [e], sid, event) <==> Did(events, sid, event) || Does(e, sid, event)
    ensures FirstStored(events + [e], sid)
         == if e.sid == sid && !LookedUp(events, sid) then e.stored else FirstStored(events, sid)
  {
    var all := events + [e];
    assert all[..|events|] == events && all[|events|] == e;
    forall event ensures Did(all, sid, event) <==> Did(events, sid, event) || Does(e, sid, event) {
      if Did(events, sid, event) {
        var i :| 0 <= i < |events| && Does(events[i], sid, event);
        assert Does(all[i], sid, event);
      }
    }
    if LookedUp(events, sid) {
      var i :| 0 <= i < |events| && events[i].sid == sid;
      assert all[i].sid == sid;
    }
  }

  /** The completion mark, then: it was stored at the first look, or all three events are accounted for. */
  predicate Booted(events: seq<Event>, sid: string) {
    || BOOT_COMPLETED in FirstStored(events, sid)
    || (SESSION_START in FirstStored(events, sid) && Known(events, sid, CONTINUATION_LOADED)
        && Known(events, sid, OBLIGATION_CHECK))
  }

  /** What a call adds to the memory of its own session. */
  lemma CallSees(s: State, sid: string, c: Call, stored: set<string>)
    ensures var seen, seen' := SeenOf(Hydrate(s, sid, stored), sid), SeenOf(OnCall(s, sid, c, stored).0, sid);
            && (seen <= REQUIRED + {BOOT_COMPLETED} ==> seen' <= REQUIRED + {BOOT_COMPLETED})
            && (SESSION_START in seen' <==> SESSION_START in seen)
            && (CONTINUATION_LOADED in seen' <==> CONTINUATION_LOADED in seen || LoadsContinuation(c))
            && (OBLIGATION_CHECK in seen' <==> OBLIGATION_CHECK in seen || ChecksObligations(c))
            && (BOOT_COMPLETED in seen' <==> BOOT_COMPLETED in seen || REQUIRED <= seen')
    ensures sid in OnCall(s, sid, c, stored).0.seen
  {
  }

  lemma OthersUntouched(s: State, sid: string, c: Call, stored: set<string>, other: string)
    requires other != sid
    ensures other in OnCall(s, sid, c, stored).0.seen <==> other in s.seen
    ensures SeenOf(OnCall(s, sid, c, stored).0, other) == SeenOf(s, other)
  {
  }

  /** The memory of a session is what the history accounts for. */
  ghost predicate SeesHistory(s: State, events: seq<Event>, sid: string) {
    && (sid in s.seen <==> LookedUp(events, sid))
    && SeenOf(s, sid) <= REQUIRED + {BOOT_COMPLETED}
    && (SESSION_START in SeenOf(s, sid) <==> SESSION_START in FirstStored(events, sid))
    && (CONTINUATION_LOADED in SeenOf(s, sid) <==> Known(events, sid, CONTINUATION_LOADED))
    && (OBLIGATION_CHECK in SeenOf(s, sid) <==> Known(events, sid, OBLIGATION_CHECK))
    && (BOOT_COMPLETED in SeenOf(s, sid) <==> Booted(events, sid))
  }

  lemma CallSeesHistory(s: State, events: seq<Event>, e: Event)
    requires SeesHistory(s, events, e.sid)
    ensures SeesHistory(OnCall(s, e.sid, e.call, e.stored).0, events + [e], e.sid)
  {
    HistorySnoc(events, e, e.sid);
    if !LookedUp(events, e.sid) { NothingBefore(events, e.sid); }
    CallSees(s, e.sid, e.call, e.stored);
  }

  lemma NothingBefore(events: seq<Event>, sid: string)
    requires !LookedUp(events, sid)
    ensures forall event :: !Did(events, sid, event)
  {
  }

  /** After any run of a process, what it has seen of a session is what the store held at the first
      look and what the process did itself, no more and no less. */
  lemma {:induction false} SeenIsHistory(events: seq<Event>, sid: string)
    ensures SeesHistory(After(EMPTY, events), events, sid)
  {
    if events != [] {
      var init, last := events[..|events| - 1], events[|events| - 1];
      assert events == init + [last];
      SeenIsHistory(init, sid);
      if last.sid == sid {
        CallSeesHistory(After(EMPTY, init), init, last);
      } else {
        HistorySnoc(init, last, sid);
        OthersUntouched(After(EMPTY, init), last.sid, last.call, last.stored, sid);
      }
    }
  }

  /** A call of a real session, at the end of any run of the process, passes iff it is whitelisted, or the
      store held the completion mark when the session was first looked up, or it held session_start and
      each of the other two was stored by then or done by this process, this call included. */
  lemma GateIsHistory(events: seq<Event>, e: Event)
    requires Real(e.sid)
    ensures OnCall(After(EMPTY, events), e.sid, e.call, e.stored).1 <==>
        Whitelisted(e.call) || Booted(events + [e], e.sid)
  {
    var all := events + [e];
    assert all[..|events|] == events;
    SeenIsHistory(all, e.sid);
  }

  /** Session ids the gate leaves alone: none, "unknown", and those of tests. */
  lemma OtherSessionsPass(s: State, sid: string, c: Call, stored: set<string>)
    ensures sid == "" || sid == "unknown" || "test_" <= sid ==> OnCall(s, sid, c, stored).1
    ensures sid != "" && sid != "unknown" && !("test_" <= sid) ==> Real(sid)
  {
  }

  lemma {:induction false} ContainsMeans(s: string, t: string)
    ensures Contains(s, t) <==> exists i :: 0 <= i <= |s| && t <= s[i..]
  {
    if StartsWith(s, t) {
      assert t <= s[0..];
    } else if s != "" {
      ContainsMeans(s[1..], t);
      if i :| 0 <= i <= |s[1..]| && t <= s[1..][i..] { assert s[1..][i..] == s[i + 1..]; }
      if i :| 0 <= i <= |s| && t <= s[i..] {
        assert s[0..] == s;
        assert i > 0 && s[1..][i - 1..] == s[i..];
      }
    }
  }

  lemma EndsWithMeans(s: string, t: string)
    ensures EndsWith(s, t) <==> exists head :: s == head + t
  {
    if EndsWith(s, t) { assert s == s[..|s| - |t|] + t; }
  }

  ghost predicate Ending(s: string, t: string) { exists head :: s == head + t }

  ghost predicate Within(t: string, s: string) { exists i :: 0 <= i <= |s| && t <= s[i..] }

  /** The calls the boot protocol itself needs, spelled out: while a real session has not booted, a call passes iff
      it is one of these. */
  lemma ClosedGateAdmits(events: seq<Event>, e: Event)
    requires Real(e.sid) && !Booted(events + [e], e.sid)
    ensures OnCall(After(EMPTY, events), e.sid, e.call, e.stored).1 <==>
              || e.call.tool in {"mcp__gov-mcp__gov_obligations", "mcp__gov-mcp__gov_session_info",
                                 "mcp__gov-mcp__gov_health", "mcp__gov-mcp__gov_check", "mcp__gov-mcp__gov_doctor",
                                 "ToolSearch"}
              || (e.call.tool == "Bash" && (Within("governance_boot.sh", e.call.command)
                                            || Within("session_close_yml.py", e.call.command)))
              || (e.call.tool == "Read" && (|| Ending(e.call.filePath, "memory/continuation.json")
                                            || Ending(e.call.filePath, "memory/continuation.md")
                                            || Ending(e.call.filePath, "memory/session_handoff.md")
                                            || Ending(e.call.filePath, ".ystar_session.json")))
  {
    GateIsHistory(events, e);
    ContainsMeans(e.call.command, "governance_boot.sh");
    ContainsMeans(e.call.command, "session_close_yml.py");
    EndsWithMeans(e.call.filePath, "memory/continuation.json");
    EndsWithMeans(e.call.filePath, "memory/continuation.md");
    EndsWithMeans(e.call.filePath, "memory/session_handoff.md");
    EndsWithMeans(e.call.filePath, ".ystar_session.json");
  }

  /** What counts as reading the continuation and as asking for the obligations. */
  lemma DetectedCalls(c: Call)
    ensures LoadsContinuation(c) <==>
              c.tool == "Read" && (Ending(c.filePath, "memory/continuation.json")
                  || Ending(c.filePath, "memory/continuation.md"))
    ensures ChecksObligations(c) <==>
              c.tool == "mcp__gov-mcp__gov_obligations" || (c.tool == "Read" && Within("omission", Lower(c.filePath)))
    ensures |Lower(c.filePath)| == |c.filePath|
    ensures forall i :: 0 <= i < |c.filePath| ==>
              Lower(c.filePath)[i] == if 'A' <= c.filePath[i] <= 'Z' then c.filePath[i] - 'A' + 'a' else c.filePath[i]
  {
    EndsWithMeans(c.filePath, "memory/continuation.json");
    EndsWithMeans(c.filePath, "memory/continuation.md");
    ContainsMeans(Lower(c.filePath), "omission");
  }

  predicate Written(s: State, sid: string, event: string) {
    exists i :: 0 <= i < |s.emitted| && s.emitted[i] == (sid, event)
  }

  lemma CallWrites(s: State, sid: string, c: Call, stored: set<string>, x: string, event: string)
    ensures Written(OnCall(s, sid, c, stored).0, x, event) <==>
              || Written(s, x, event)
              || (event in SeenOf(OnCall(s, sid, c, stored).0, x) && event !in SeenOf(Hydrate(s, sid, stored), x))
  {
    var s0 := Hydrate(s, sid, stored);
    var s1 := EmitIf(s0, sid, CONTINUATION_LOADED, LoadsContinuation(c));
    var s2 := EmitIf(s1, sid, OBLIGATION_CHECK, ChecksObligations(c));
    EmitWrites(s0, sid, CONTINUATION_LOADED, LoadsContinuation(c), x, event);
    EmitWrites(s1, sid, OBLIGATION_CHECK, ChecksObligations(c), x, event);
    EmitWrites(s2, sid, BOOT_COMPLETED, REQUIRED <= SeenOf(s2, sid), x, event);
  }

  lemma EmitWrites(s: State, sid: string, event: string, when: bool, x: string, other: string)
    ensures var t := EmitIf(s, sid, event, when);
            && (Written(t, x, other) <==> Written(s, x, other) || (other in SeenOf(t, x) && other !in SeenOf(s, x)))
            && SeenOf(s, x) <= SeenOf(t, x)
  {
    var t := EmitIf(s, sid, event, when);
    if t != s { assert t.emitted[|s.emitted|] == (sid, event); }
    if Written(s, x, other) {
      var i :| 0 <= i < |s.emitted| && s.emitted[i] == (x, other);
      assert t.emitted[i] == (x, other);
    }
  }

  ghost predicate WrittenAsSeen(s: State, events: seq<Event>, sid: string, event: string) {
    Written(s, sid, event) <==>
      event in SeenOf(s, sid) && !(event in FirstStored(events, sid) && event in REQUIRED + {BOOT_COMPLETED})
  }

  /** After any run the process has written exactly the events it saw and did not find stored at the first look. */
  lemma {:induction false} WrittenIsHistory(events: seq<Event>, sid: string, event: string)
    ensures WrittenAsSeen(After(EMPTY, events), events, sid, event)
  {
    if events != [] {
      var init, last := events[..|events| - 1], events[|events| - 1];
      assert events == init + [last];
      WrittenIsHistory(init, sid, event);
      if last.sid == sid {
        WrittenAfterCall(init, last, event);
      } else {
        HistorySnoc(init, last, sid);
        CallWrites(After(EMPTY, init), last.sid, last.call, last.stored, sid, event);
        OthersUntouched(After(EMPTY, init), last.sid, last.call, last.stored, sid);
      }
    }
  }

  lemma WrittenAfterCall(events: seq<Event>, e: Event, event: string)
    requires WrittenAsSeen(After(EMPTY, events), events, e.sid, event)
    ensures WrittenAsSeen(OnCall(After(EMPTY, events), e.sid, e.call, e.stored).0, events + [e], e.sid, event)
  {
    var s := After(EMPTY, events);
    SeenIsHistory(events, e.sid);
    HistorySnoc(events, e, e.sid);
    CallWrites(s, e.sid, e.call, e.stored, e.sid, event);
    HydratedSees(s, e.sid, e.call, e.stored, event);
  }

  /** What a call finds when it starts: its session's memory, or at the first look the stored boot events. */
  lemma HydratedSees(s: State, sid: string, c: Call, stored: set<string>, event: string)
    ensures event in SeenOf(Hydrate(s, sid, stored), sid) ==> event in SeenOf(OnCall(s, sid, c, stored).0, sid)
    ensures event in SeenOf(Hydrate(s, sid, stored), sid) <==>
              if sid in s.seen then event in SeenOf(s, sid) else event in stored && event in REQUIRED + {BOOT_COMPLETED}
  {
  }

  lemma FirstStoredStays(events: seq<Event>, more: seq<Event>, sid: string)
    requires LookedUp(events, sid)
    ensures LookedUp(events + more, sid) && FirstStored(events + more, sid) == FirstStored(events, sid)
  {
    if more == [] {
      assert events + more == events;
    } else {
      var init, last := more[..|more| - 1], more[|more| - 1];
      FirstStoredStays(events, init, sid);
      HistorySnoc(events + init, last, sid);
      assert events + more == (events + init) + [last];
    }
  }

  /** Boot events stored by others after the first look are never noticed: with all three events in the store or
      done here by now, a call is still refused iff it is not whitelisted, the mark was not stored at
      that look, and one of the events was neither stored then nor done here. */
  lemma LateStoreUnnoticedIff(events: seq<Event>, e: Event)
    requires Real(e.sid) && LookedUp(events, e.sid)
    requires forall event :: event in REQUIRED ==> event in e.stored || Did(events + [e], e.sid, event)
    ensures !OnCall(After(EMPTY, events), e.sid, e.call, e.stored).1 <==>
              && !Whitelisted(e.call) && BOOT_COMPLETED !in FirstStored(events, e.sid)
              && exists event ::
                  event in REQUIRED && event !in FirstStored(events, e.sid) && !Did(events + [e], e.sid, event)
  {
    GateIsHistory(events, e);
    FirstStoredStays(events, [e], e.sid);
    assert Booted(events + [e], e.sid) <==>
             || BOOT_COMPLETED in FirstStored(events, e.sid)
             || forall event :: event in REQUIRED ==> Known(events + [e], e.sid, event);
  }

  const WRITE := Call("Write", "", "")

  lemma WriteIsNotWhitelisted()
    ensures !Whitelisted(WRITE) && !LoadsContinuation(WRITE) && !ChecksObligations(WRITE)
  {
  }

  /** A session first looked up without its continuation, which another process then stores: still refused. */
  lemma LateContinuationIsRefused()
    ensures var first := Event("a", WRITE, {SESSION_START, OBLIGATION_CHECK});
            !OnCall(After(EMPTY, [first]), "a", WRITE, REQUIRED).1
  {
    var first := Event("a", WRITE, {SESSION_START, OBLIGATION_CHECK});
    var e := Event("a", WRITE, REQUIRED);
    WriteIsNotWhitelisted();
    assert [first][0].sid == "a";
    assert [first][..0] == [];
    assert FirstStored([first], "a") == {SESSION_START, OBLIGATION_CHECK};
    assert CONTINUATION_LOADED in REQUIRED && CONTINUATION_LOADED !in FirstStored([first], "a");
    assert !Did([first, e], "a", CONTINUATION_LOADED);
    LateStoreUnnoticedIff([first], e);
  }

  /** A first look that finds the three stored events lets a write through and writes the completion mark; one
      that finds only the mark lets it through and writes nothing; session_start alone does neither. */
  lemma FirstLookDecides()
    ensures var (t, allowed) := OnCall(EMPTY, "a", WRITE, {"session_start", "continuation_loaded", "obligation_check"});
            allowed && t.emitted == [("a", "boot_protocol_completed")]
    ensures var (t, allowed) := OnCall(EMPTY, "a", WRITE, {"boot_protocol_completed"});
            allowed && t.emitted == []
    ensures var (t, allowed) := OnCall(EMPTY, "a", WRITE, {"session_start", "other"});
            !allowed && t == State(map["a" := {"session_start"}], [])
  {
    WriteIsNotWhitelisted();
    var all := {"session_start", "continuation_loaded", "obligation_check"};
    assert SeenOf(Hydrate(EMPTY, "a", all), "a") == all == REQUIRED;
    assert BOOT_COMPLETED !in REQUIRED;
    assert SESSION_START !in {"boot_protocol_completed"} && CONTINUATION_LOADED !in {"session_start"};
    assert {"session_start", "other"} * (REQUIRED + {BOOT_COMPLETED}) == {"session_start"};
  }

  ghost predicate Hopeless(events: seq<Event>, sid: string) {
    SESSION_START !in FirstStored(events, sid) && BOOT_COMPLETED !in FirstStored(events, sid)
  }

  lemma HopelessIsRefused(events: seq<Event>, more: seq<Event>, e: Event)
    requires Real(e.sid) && LookedUp(events, e.sid) && Hopeless(events, e.sid)
    ensures OnCall(After(EMPTY, events + more), e.sid, e.call, e.stored).1 ==> Whitelisted(e.call)
  {
    GateIsHistory(events + more, e);
    FirstStoredStays(events, more, e.sid);
    FirstStoredStays(events + more, [e], e.sid);
  }

  /** A read of the continuation and a question for the obligations. */
  function BootCalls(sid: string): seq<Event> {
    [Event(sid, Call("Read", "", "memory/continuation.json"), {}), Event(sid, Call(OBLIGATIONS_TOOL, "", ""), {})]
  }

  lemma BootCallsOpen(events: seq<Event>, sid: string)
    requires Real(sid) && LookedUp(events, sid) && !Hopeless(events, sid)
    ensures OnCall(After(EMPTY, events + BootCalls(sid)), sid, WRITE, {}).1
  {
    var more, e := BootCalls(sid), Event(sid, WRITE, {});
    FirstStoredStays(events, more, sid);
    FirstStoredStays(events + more, [e], sid);
    BootCallsDo(events, sid);
    HistorySnoc(events + more, e, sid);
    GateIsHistory(events + more, e);
  }

  lemma BootCallsDo(events: seq<Event>, sid: string)
    ensures Did(events + BootCalls(sid), sid, CONTINUATION_LOADED)
        && Did(events + BootCalls(sid), sid, OBLIGATION_CHECK)
  {
    WhitelistedPairExists();
    var all := events + BootCalls(sid);
    assert Does(all[|events|], sid, CONTINUATION_LOADED);
    assert Does(all[|events| + 1], sid, OBLIGATION_CHECK);
  }

  /** A session already looked up can never open its gate again in this process, whatever is stored and
      called from then on, iff the first look found neither session_start nor the completion mark. */
  lemma EarlyHydrationNeverOpens(events: seq<Event>, sid: string)
    requires Real(sid) && LookedUp(events, sid)
    ensures (forall more, c, stored :: OnCall(After(EMPTY, events + more), sid, c, stored).1 ==> Whitelisted(c)) <==>
              SESSION_START !in FirstStored(events, sid) && BOOT_COMPLETED !in FirstStored(events, sid)
  {
    if Hopeless(events, sid) {
      forall more, c, stored | OnCall(After(EMPTY, events + more), sid, c, stored).1 ensures Whitelisted(c) {
        HopelessIsRefused(events, more, Event(sid, c, stored));
      }
    } else {
      WriteIsNotWhitelisted();
      BootCallsOpen(events, sid);
    }
  }
}
