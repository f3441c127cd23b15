/** Routing is a function of the event history, and what the diagnostics predict
    (ystar/adapters/omission_adapter.py). */
module RoutingTheorems {
  import opened Common
  import opened OmissionRouting

  function After(c: Caches, events: seq<Raw>): Caches {
    if events == [] then c else Ingest(After(c, events[..|events| - 1]), events[|events| - 1]).0
  }

  const EMPTY := Caches(map[], map[])

  // ---- what one event binds, read off the event alone ----------------------------------

  predicate IsSpawn(raw: Raw) { TypeOf(raw) == "subagent_spawn" && SpawnChild(raw) != "" }
  predicate IsHandoff(raw: Raw) { TypeOf(raw) == "handoff" && NamedChild(raw) != "" }

  /** The entity an event creates a route to. */
  function BoundEntity(raw: Raw): string {
    if IsSpawn(raw) then SpawnChild(raw) else if IsHandoff(raw) then NamedChild(raw) else ""
  }

  predicate BindsAgent(raw: Raw, agent: string) {
    || (IsSpawn(raw) && (agent == SpawnChild(raw) || (agent != "" && agent == Or(raw.childAgentId, ""))))
    || (IsHandoff(raw) && agent == NamedChild(raw))
  }

  predicate BindsManager(raw: Raw, manager: string) {
    && manager != ""
    && ((IsSpawn(raw) && manager == SpawnParent(raw))
        || (IsHandoff(raw) && manager == Or(raw.parentAgentId, AgentOf(raw))))
  }

  /** The entity bound by the latest event of a kind. */
  function Latest(events: seq<Raw>, binds: Raw -> bool): Option<string> {
    if events == [] then None
    else if binds(events[|events| - 1]) then Some(BoundEntity(events[|events| - 1]))
    else Latest(events[..|events| - 1], binds)
  }

  function BindingOf(agent: string): Raw -> bool { raw => BindsAgent(raw, agent) }
  function Parenting(manager: string): Raw -> bool { raw => BindsManager(raw, manager) }
  function Writing(key: string): Raw -> bool { raw => Writes(raw, key) }

  /** The entity bound by the latest event that bound the agent. */
  function LatestForAgent(events: seq<Raw>, agent: string): Option<string> { Latest(events, BindingOf(agent)) }

  /** A manager's most recent child. */
  function LatestChild(events: seq<Raw>, manager: string): Option<string> { Latest(events, Parenting(manager)) }

  /** The latest event that wrote a cache key, be it an agent's id or the internal key of a manager. */
  function LastWritten(events: seq<Raw>, key: string): Option<string> { Latest(events, Writing(key)) }

  predicate Reserved(id: string) { StartsWith(id, LATEST_CHILD_OF) }

  predicate Writes(raw: Raw, key: string) {
    BindsAgent(raw, key) || (Reserved(key) && BindsManager(raw, key[|LATEST_CHILD_OF|..]))
  }

  /** One event changes exactly the keys it writes. */
  lemma IngestWrites(c: Caches, raw: Raw, key: string)
    ensures Cached(Ingest(c, raw).0, key) == if Writes(raw, key) then Some(BoundEntity(raw)) else Cached(c, key)
  {
    var parent := if IsSpawn(raw) then SpawnParent(raw) else Or(raw.parentAgentId, AgentOf(raw));
    assert (LATEST_CHILD_OF + parent)[|LATEST_CHILD_OF|..] == parent;
    assert Reserved(key) ==> key == LATEST_CHILD_OF + key[|LATEST_CHILD_OF|..];
  }

  /** After any history, for every key: the cache holds what the latest event that wrote the key bound. */
  lemma {:induction false} CachesReadHistory(events: seq<Raw>, key: string)
    ensures Cached(After(EMPTY, events), key) == LastWritten(events, key)
  {
    if events != [] {
      var init := events[..|events| - 1];
      CachesReadHistory(init, key);
      IngestWrites(After(EMPTY, init), events[|events| - 1], key);
    }
  }

  /** After any history a fulfilment event without a ticket goes, for a manager's event, to what was
      last written for the manager's children, else to what was last written for its agent, and to the
      session only when nothing was. */
  lemma RoutedByHistory(events: seq<Raw>, raw: Raw)
    requires Fulfills(TypeOf(raw)) && Or(raw.ticket, "") == ""
    ensures var agent := AgentOf(raw);
            Ingest(After(EMPTY, events), raw).1 == Some(
              if FromManager(TypeOf(raw)) && LastWritten(events, LATEST_CHILD_OF + agent).Some?
                  then LastWritten(events, LATEST_CHILD_OF + agent).value
              else if LastWritten(events, agent).Some? then LastWritten(events, agent).value
              else SessionFallback(SessionOf(raw), agent))
    ensures Ingest(After(EMPTY, events), raw).0 == After(EMPTY, events)
  {
    CachesReadHistory(events, LATEST_CHILD_OF + AgentOf(raw));
    CachesReadHistory(events, AgentOf(raw));
    FulfillmentOnlyReads(After(EMPTY, events), raw);
  }

  // ---- where every event is filed ------------------------------------------------------------------

  /** The fulfilment types are the platform's event types but for the three that open sessions and tasks. */
  lemma FulfillmentTypesAre(t: string)
    ensures Fulfills(t) <==> t in OPENCLAW_TYPES && t !in {"session_start", "subagent_spawn", "handoff"}
    ensures FromManager(t) <==> t == "task_delegated" || t == "upstream_summary"
    ensures FromManager(t) ==> Fulfills(t)
  {
  }

  /** Whatever the caches hold, a spawn or handoff that names someone is filed under the one it binds. */
  lemma BindingsFiledUnderBound(c: Caches, raw: Raw)
    requires IsSpawn(raw) || IsHandoff(raw)
    ensures Ingest(c, raw).1 == Some(BoundEntity(raw)) && BoundEntity(raw) != ""
    ensures BindsAgent(raw, BoundEntity(raw))
  {
  }

  /** After any history: that is where the next unticketed report of the bound one goes too, directly after. */
  lemma ReportsFollowBinding(events: seq<Raw>, raw: Raw, report: Raw)
    requires (IsSpawn(raw) || IsHandoff(raw)) && BindsAgent(raw, AgentOf(report))
    requires Fulfills(TypeOf(report)) && !FromManager(TypeOf(report)) && Or(report.ticket, "") == ""
    ensures Ingest(After(EMPTY, events), raw).1 == Ingest(After(EMPTY, events + [raw]), report).1
        == Some(BoundEntity(raw))
  {
    BindingsFiledUnderBound(After(EMPTY, events), raw);
    assert (events + [raw])[..|events|] == events;
    RoutedByHistory(events + [raw], report);
  }

  /** A ticket decides for every event but a spawn, which it names, and a handoff that names a child. Without
      one, an event that neither binds nor fulfils goes to its session, else to its agent. */
  lemma OthersFiledUnderSession(c: Caches, raw: Raw)
    requires Known(TypeOf(raw)) && !IsSpawn(raw) && !IsHandoff(raw)
    ensures Or(raw.ticket, "") != "" ==> Ingest(c, raw).1 == Some(Or(raw.ticket, ""))
    ensures Or(raw.ticket, "") == "" && !Fulfills(TypeOf(raw)) && SessionOf(raw) != "" ==>
        Ingest(c, raw).1 == Some(SessionOf(raw))
    ensures Or(raw.ticket, "") == "" && !Fulfills(TypeOf(raw)) && SessionOf(raw) == "" ==>
        Ingest(c, raw).1 == Some(AgentOf(raw))
    ensures Ingest(c, raw).0 == c
  {
  }

  /** How an absent and a null agent are read: as the texts "unknown" and "None". */
  lemma AbsentAgentsHaveNames()
    ensures var ack := Raw(Text("task_acked"), Missing, Missing, Missing, Missing, Missing);
            && Ingest(EMPTY, ack).1 == Some("unknown")
            && Ingest(EMPTY, ack.(agentId := Null)).1 == Some("None")
            && Ingest(EMPTY, ack.(agentId := Text("w"), ticket := Null)).1 == Some("w")
            && Ingest(EMPTY, ack.(agentId := Text("w"), sessionId := Null)).1 == Some("None")
            && Ingest(EMPTY, ack.(eventType := Null)).1 == None
  {
    assert "None" !in OPENCLAW_TYPES && "None" !in YSTAR_TYPES;
  }

  /** Event i is the latest of a kind. */
  ghost predicate IsLatest(events: seq<Raw>, kind: Raw -> bool, i: nat) {
    i < |events| && kind(events[i]) && forall j :: i < j < |events| ==> !kind(events[j])
  }

  /** The latest event that wrote the key is one of those meant, or repeats the entity the latest of
      those meant had bound. */
  ghost predicate WrittenAsMeant(events: seq<Raw>, writes: Raw -> bool, meant: Raw -> bool) {
    forall i: nat ::
        IsLatest(events, writes, i) && !meant(events[i]) ==>
        Latest(events[..i], meant) == Some(BoundEntity(events[i]))
  }

  lemma {:induction false} LatestAgreeIff(events: seq<Raw>, writes: Raw -> bool, meant: Raw -> bool)
    requires forall raw :: meant(raw) ==> writes(raw)
    ensures Latest(events, writes) == Latest(events, meant) <==> WrittenAsMeant(events, writes, meant)
  {
    if events != [] {
      var k := |events| - 1;
      var init, last := events[..k], events[k];
      if writes(last) {
        assert IsLatest(events, writes, k);
      } else {
        LatestAgreeIff(init, writes, meant);
        forall i: nat | i < |init| ensures IsLatest(init, writes, i) <==> IsLatest(events, writes, i) {
          assert forall j :: 0 <= j < |init| ==> init[j] == events[j];
        }
        assert forall i: nat | i < |init| :: init[..i] == events[..i];
      }
    }
  }

  /** A manager's route is its most recent child, and an agent's the entity of the event that last bound
      it, exactly when the latest event to write the cache key was of that kind or changed nothing. */
  lemma RoutesAsBoundIff(events: seq<Raw>, agent: string)
    ensures Cached(After(EMPTY, events), LATEST_CHILD_OF + agent) == LatestChild(events, agent)
       <==> WrittenAsMeant(events, Writing(LATEST_CHILD_OF + agent), Parenting(agent))
    ensures Cached(After(EMPTY, events), agent) == LatestForAgent(events, agent)
       <==> WrittenAsMeant(events, Writing(agent), BindingOf(agent))
  {
    var key := LATEST_CHILD_OF + agent;
    assert key[|LATEST_CHILD_OF|..] == agent;
    CachesReadHistory(events, key);
    CachesReadHistory(events, agent);
    LatestAgreeIff(events, Writing(key), Parenting(agent));
    LatestAgreeIff(events, Writing(agent), BindingOf(agent));
  }

  /** So it is for every agent whose id is not an internal key, and for every manager whose internal key
      no event binds as an agent. */
  lemma UnreservedRoutes(events: seq<Raw>, agent: string)
    ensures !Reserved(agent) ==> Cached(After(EMPTY, events), agent) == LatestForAgent(events, agent)
    ensures (forall i :: 0 <= i < |events| ==> !BindsAgent(events[i], LATEST_CHILD_OF + agent)) ==>
              Cached(After(EMPTY, events), LATEST_CHILD_OF + agent) == LatestChild(events, agent)
  {
    assert (LATEST_CHILD_OF + agent)[|LATEST_CHILD_OF|..] == agent;
    RoutesAsBoundIff(events, agent);
  }

  lemma FulfillmentOnlyReads(c: Caches, raw: Raw)
    requires Fulfills(TypeOf(raw))
    ensures Ingest(c, raw) == (c, Some(if Or(raw.ticket, "") != "" then Or(raw.ticket, "")
                                       else RouteWithoutTicket(c, TypeOf(raw), SessionOf(raw), AgentOf(raw))))
  {
  }

  /** A child named like an internal key hijacks the route of a manager that never had a child. */
  lemma ReservedIdHijacksRoute()
    ensures var spawn := Raw(Text("subagent_spawn"), Text("p"), Text("s"), Text("__latest_child_of_m"), Missing,
        Missing);
            var report := Raw(Text("upstream_summary"), Text("m"), Text("s"), Missing, Missing, Missing);
            && LatestChild([spawn], "m") == None && LatestForAgent([spawn], "m") == None
            && Ingest(After(EMPTY, [spawn]), report).1 == Some("__latest_child_of_m")
  {
    var spawn := Raw(Text("subagent_spawn"), Text("p"), Text("s"), Text("__latest_child_of_m"), Missing, Missing);
    assert [spawn][..0] == [];
    assert LATEST_CHILD_OF + "m" == "__latest_child_of_m";
    assert ("__latest_child_of_p")[18] == 'p' && ("__latest_child_of_m")[18] == 'm';
    assert LATEST_CHILD_OF + "p" == "__latest_child_of_p";
    assert Cached(After(EMPTY, [spawn]), "__latest_child_of_m") == Some("__latest_child_of_m");
  }

  // ---- diagnosis and debugging -----------------------------------------------------------

  /** For a fulfilment event diagnose_event names the entity ingestion will use iff the event carries a
      ticket, or names its agent or session or has its agent cached, and is no manager's with a cached
      child other than the agent's own route. */
  lemma DiagnosisPredictsIff(c: Caches, raw: Raw)
    requires Fulfills(TypeOf(raw))
    ensures var agent, session := AgentOf(raw), SessionOf(raw);
            Diagnose(c, raw).entity == Ingest(c, raw).1 <==>
              || Or(raw.ticket, "") != ""
              || (&& (Cached(c, agent).Some? || session != "" || agent != "")
                  && (FromManager(TypeOf(raw)) && Cached(c, LATEST_CHILD_OF + agent).Some? ==>
                        Cached(c, LATEST_CHILD_OF + agent) ==
                          if Cached(c, agent).Some? then Cached(c, agent)
                              else Some(if session != "" then session else agent)))
    ensures Ingest(c, raw).0 == c
  {
  }

  /** A manager that spawned a child and reports: the diagnosis names the session, ingestion the child. */
  lemma DiagnosisMissesChild()
    ensures var spawn := Raw(Text("subagent_spawn"), Text("m"), Text("s"), Text("w"), Missing, Missing);
            var report := Raw(Text("upstream_summary"), Text("m"), Text("s"), Missing, Missing, Missing);
            var c := After(EMPTY, [spawn]);
            Diagnose(c, report).entity == Some("s") && Ingest(c, report).1 == Some("w")
  {
    var spawn := Raw(Text("subagent_spawn"), Text("m"), Text("s"), Text("w"), Missing, Missing);
    CachesReadHistory([spawn], LATEST_CHILD_OF + "m");
    CachesReadHistory([spawn], "m");
    assert (LATEST_CHILD_OF + "m")[|LATEST_CHILD_OF|..] == "m";
    assert "m"[0] != "w"[0] && |LATEST_CHILD_OF| > 1;
    assert [spawn][..0] == [];
    assert Latest([], Writing("m")) == None;
  }

  /** Events that are no fulfilment: the diagnosis of a spawn is always right, of a handoff unless it carries
      both a ticket and another child, and of any other only when it carries a ticket. */
  lemma OtherDiagnosesIff(c: Caches, raw: Raw)
    requires Known(TypeOf(raw)) && !Fulfills(TypeOf(raw))
    ensures Diagnose(c, raw).entity == Ingest(c, raw).1 <==>
              if IsSpawn(raw) then true
              else if IsHandoff(raw) then
                Or(raw.ticket, "") == "" || Or(raw.childAgentId, "") == ""
                    || Or(raw.ticket, "") == Or(raw.childAgentId, "")
              else Or(raw.ticket, "") != ""
  {
  }

  lemma {:induction false} RoutesHaveNames(events: seq<Raw>)
    ensures forall key :: key in After(EMPTY, events).entityOf ==> After(EMPTY, events).entityOf[key] != ""
  {
    if events != [] { RoutesHaveNames(events[..|events| - 1]); }
  }

  /** After any history the diagnosis of a known type is: no entity, when nothing the event or the history names
      could be one; unknown actor, for a fulfilment whose agent no event bound or gave a child; else in order. */
  lemma FailureIsHistory(events: seq<Raw>, raw: Raw)
    requires Known(TypeOf(raw))
    ensures var d, agent := Diagnose(After(EMPTY, events), raw), AgentOf(raw);
            && d.failure != UnknownEventType
            && (d.failure == MissingEntityId <==> d.entity == None)
            && (d.entity == None <==>
                  && Or(raw.ticket, "") == ""
                  && (Binding(TypeOf(raw)) ==> Or(raw.childAgentId, "") == "")
                  && (Fulfills(TypeOf(raw)) ==>
                      LastWritten(events, agent) == None && SessionOf(raw) == "" && agent == ""))
            && (d.failure == UnknownActor <==>
                  && Fulfills(TypeOf(raw)) && d.entity != None
                  && LastWritten(events, agent) == None && LastWritten(events, LATEST_CHILD_OF + agent) == None)
  {
    RoutesHaveNames(events);
    CachesReadHistory(events, AgentOf(raw));
    CachesReadHistory(events, LATEST_CHILD_OF + AgentOf(raw));
  }

  /** An unknown-type diagnosis is given iff translation yields no event. */
  lemma UnknownIffUntranslated(c: Caches, raw: Raw)
    ensures Diagnose(c, raw).failure == UnknownEventType <==> Ingest(c, raw).1 == None
    ensures Diagnose(c, raw).failure == UnknownEventType ==> Ingest(c, raw).0 == c
  {
  }

  /** debug_routing predicts every fulfilment event, managers' included, and changes no cache. */
  lemma DebugPredictsFulfillment(c: Caches, raw: Raw)
    requires Fulfills(TypeOf(raw))
    ensures var (c', e) := Resolve(c, MockRaw(TypeOf(raw), AgentOf(raw), SessionOf(raw), raw.ticket), TypeOf(raw),
        SessionOf(raw), AgentOf(raw));
            c' == c && Ingest(c, raw).1 == Some(e)
  {
  }

  /** For any other type it answers the ticket, else the session, else the agent: for a spawn or handoff with
      a ticket that is where it is filed when it names no other child. */
  lemma DebugNamesOthers(c: Caches, t: string, agent: string, session: string, ticket: Field)
    requires !Fulfills(t)
    ensures Resolve(c, MockRaw(t, agent, session, ticket), t, session, agent).1 ==
              if ticket.Text? && ticket.s != "" then ticket.s else if session != "" then session else agent
  {
  }

  /** It is not read-only in general: asked about a spawn or a handoff with a ticket it registers the
      ticket, and leaves the caches alone iff it is asked anything else or that registration is there already. */
  lemma DebugLeavesCachesIff(c: Caches, t: string, agent: string, session: string, ticket: Field)
    ensures Resolve(c, MockRaw(t, agent, session, ticket), t, session, agent).0 == c <==>
              (Binding(t) && Or(ticket, "") != "" ==>
                && Or(ticket, "") in c.rootOf && c.rootOf[Or(ticket, "")] == Root(c.rootOf, session)
                && Or(ticket, "") in c.entityOf
                && (agent != "" ==>
                    LATEST_CHILD_OF + agent in c.entityOf && c.entityOf[LATEST_CHILD_OF + agent] == Or(ticket, ""))
                && (c.entityOf[Or(ticket, "")] == Or(ticket, "")
                    || (agent != "" && LATEST_CHILD_OF + agent == Or(ticket, ""))))
  {
  }

  /** Asked about a handoff with a ticket nobody registered, it registers it, and a later event of that
      name is routed there. */
  lemma DebugRegistersTicket()
    ensures var c := Resolve(EMPTY, MockRaw("handoff", "m", "s", Text("t")), "handoff", "s", "m").0;
            var ack := Raw(Text("task_acked"), Text("t"), Text("s"), Missing, Missing, Missing);
            c != EMPTY && Ingest(c, ack).1 == Some("t") && Ingest(EMPTY, ack).1 == Some("s")
  {
    var c := Resolve(EMPTY, MockRaw("handoff", "m", "s", Text("t")), "handoff", "s", "m").0;
    assert "t" in c.rootOf;
    assert LATEST_CHILD_OF + "m" != "t" by { assert |LATEST_CHILD_OF| > 1; }
  }
}
