/** Which entity an event is routed to: the adapter's two caches and the calls that read and write
    them (ystar/adapters/omission_adapter.py). */
module OmissionRouting {
  import opened Common

  /** A key of a raw event dictionary. */
  datatype Field = Missing | Null | Text(s: string)

  datatype Raw = Raw(eventType: Field, agentId: Field, sessionId: Field, childAgentId: Field,
                     parentAgentId: Field, ticket: Field)

  /** `str(raw.get(key, default))`. */
  function Str(f: Field, default: string): string {
    match f case Missing => default case Null => "None" case Text(s) => s
  }

  /** `raw.get(key) or ""`: the text when there is some. */
  function Or(f: Field, other: string): string {
    if f.Text? && f.s != "" then f.s else other
  }

  function TypeOf(raw: Raw): string { Str(raw.eventType, "") }
  function AgentOf(raw: Raw): string { Str(raw.agentId, "unknown") }
  function SessionOf(raw: Raw): string { Str(raw.sessionId, "") }

  const OPENCLAW_TYPES: set<string> := {
    "session_start", "subagent_spawn", "handoff", "task_delegated", "task_acked", "task_declined",
    "status_update", "blocker_detected", "result_ready", "result_published", "upstream_summary",
    "escalation", "task_closed", "task_completed", "agent_terminate" }

  const YSTAR_TYPES: set<string> := {
    "check_deny", "check_escalate", "delegation_create", "delegation_accept", "delegation_reject",
    "task_created", "task_started", "task_open", "new_task", "task_assigned", "task_dispatched",
    "task_accepted", "task_ack", "task_update", "progress_update", "status_report", "task_done",
    "task_finished", "task_completed", "task_success", "task_closed", "task_archived", "task_failed",
    "task_blocked", "blocker", "result_ready", "result_done", "task_result" }

  const FULFILLMENT_TYPES: set<string> := {
    "task_delegated", "task_acked", "task_declined", "status_update", "blocker_detected", "result_ready",
    "result_published", "upstream_summary", "escalation", "task_closed", "task_completed", "agent_terminate" }

  const MANAGER_TYPES: set<string> := { "task_delegated", "upstream_summary" }

  const LATEST_CHILD_OF := "__latest_child_of_"

  predicate Known(t: string) { t in OPENCLAW_TYPES || t in YSTAR_TYPES }
  predicate Binding(t: string) { t == "subagent_spawn" || t == "handoff" }
  predicate Fulfills(t: string) { t in FULFILLMENT_TYPES }
  predicate FromManager(t: string) { t in MANAGER_TYPES }

  // ---- the caches -------------------------------------------------------------------

  datatype Caches = Caches(entityOf: map<string, string>, rootOf: map<string, string>)

  function Root(roots: map<string, string>, id: string): string {
    if id in roots then roots[id] else id
  }

  /** `self._agent_to_entity.get(key)` when it is truthy. */
  function Cached(c: Caches, key: string): Option<string> {
    if key in c.entityOf && c.entityOf[key] != "" then Some(c.entityOf[key]) else None
  }

  function SessionFallback(session: string, agent: string): string {
    if session != "" then session else agent
  }

  /** The entity cached for the agent itself, else the session, else the agent. */
  function OwnRoute(c: Caches, session: string, agent: string): string {
    if Cached(c, agent).Some? then Cached(c, agent).value else SessionFallback(session, agent)
  }

  /** Entity of a fulfilment event that carries no ticket. */
  function RouteWithoutTicket(c: Caches, t: string, session: string, agent: string): string {
    if FromManager(t) && Cached(c, LATEST_CHILD_OF + agent).Some? then Cached(c, LATEST_CHILD_OF + agent).value
    else OwnRoute(c, session, agent)
  }

  /** The child a handoff (or a spawn that reaches the general path) names. */
  function NamedChild(raw: Raw): string { Or(raw.childAgentId, Or(raw.ticket, "")) }

  /** _resolve_entity_id: the entity, and the caches after the call. */
  function Resolve(c: Caches, raw: Raw, t: string, session: string, agent: string): (Caches, string) {
    if Binding(t) && NamedChild(raw) != "" then
      var child := NamedChild(raw);
      var parent := Or(raw.parentAgentId, agent);
      var m := c.entityOf[child := child];
      (Caches(if parent != "" then m[LATEST_CHILD_OF + parent := child] else m,
              c.rootOf[child := Root(c.rootOf, session)]), child)
    else if Fulfills(t) then
      (c, if Or(raw.ticket, "") != "" then Or(raw.ticket, "") else RouteWithoutTicket(c, t, session, agent))
    else (c, if Or(raw.ticket, "") != "" then Or(raw.ticket, "") else SessionFallback(session, agent))
  }

  /** Who a spawn registers: the ticket, when given, is the canonical child. */
  function SpawnChild(raw: Raw): string { Or(raw.ticket, Or(raw.childAgentId, "")) }

  function SpawnParent(raw: Raw): string { Or(raw.parentAgentId, Or(raw.agentId, "")) }

  function Spawn(c: Caches, raw: Raw): Caches
    requires SpawnChild(raw) != ""
  {
    var child := SpawnChild(raw);
    var agent := Or(raw.childAgentId, "");
    var root := Root(c.rootOf, SessionOf(raw));
    var m1 := c.entityOf[child := child];
    var r1 := c.rootOf[child := root];
    var m2 := if agent != "" && agent != child then m1[agent := child] else m1;
    var r2 := if agent != "" && agent != child then r1[agent := root] else r1;
    Caches(if SpawnParent(raw) != "" then m2[LATEST_CHILD_OF + SpawnParent(raw) := child] else m2, r2)
  }

  /** _translate: the entity of the governance event, if the type is known. */
  function Translated(c: Caches, raw: Raw): (Caches, Option<string>) {
    if !Known(TypeOf(raw)) then (c, None)
    else
      var (c', e) := Resolve(c, raw, TypeOf(raw), SessionOf(raw), AgentOf(raw));
      (c', Some(e))
  }

  /** _ingest_spawn_dual: a spawn that names nobody is translated like any other event. */
  function SpawnDual(c: Caches, raw: Raw): (Caches, Option<string>) {
    if SpawnChild(raw) != "" then (Spawn(c, raw), Some(SpawnChild(raw))) else Translated(c, raw)
  }

  /** ingest_raw: the caches after it, and the entity of the governance event if one is produced. */
  function Ingest(c: Caches, raw: Raw): (Caches, Option<string>) {
    if TypeOf(raw) == "subagent_spawn" then SpawnDual(c, raw) else Translated(c, raw)
  }

  // ---- diagnosis ------------------------------------------------------------------------

  datatype Failure = Ok | UnknownEventType | MissingEntityId | UnknownActor

  datatype Diagnosis = Diagnosis(failure: Failure, entity: Option<string>)

  function DiagnosedEntity(c: Caches, raw: Raw): string {
    var t := TypeOf(raw);
    if Or(raw.ticket, "") != "" then Or(raw.ticket, "")
    else if Binding(t) then Or(raw.childAgentId, "")
    else if Fulfills(t) then OwnRoute(c, SessionOf(raw), AgentOf(raw))
    else ""
  }

  function Diagnose(c: Caches, raw: Raw): Diagnosis {
    var t := TypeOf(raw);
    var e := DiagnosedEntity(c, raw);
    if !Known(t) then Diagnosis(UnknownEventType, None)
    else if e == "" then Diagnosis(MissingEntityId, None)
    else if AgentOf(raw) !in c.entityOf && Cached(c, LATEST_CHILD_OF + AgentOf(raw)).None? && Fulfills(t)
        then Diagnosis(UnknownActor, Some(e))
    else Diagnosis(Ok, Some(e))
  }

  /** The dictionary debug_routing makes up: it has no child or parent. */
  function MockRaw(t: string, agent: string, session: string, ticket: Field): Raw {
    Raw(Text(t), Text(agent), Text(session), Missing, Missing, ticket)
  }

  // ---- the adapter as the class it is -------------------------------------------------------

  class OmissionAdapter {
    var lineageCache: map<string, string>
    var agentToEntity: map<string, string>

    function View(): Caches
      reads this
    {
      Caches(agentToEntity, lineageCache)
    }

    constructor ()
      ensures View() == Caches(map[], map[])
    {
      lineageCache, agentToEntity := map[], map[];
    }

    method ResolveEntityId(raw: Raw, rawType: string, sessionId: string, agentId: string) returns (entity: string)
      modifies this
      ensures (View(), entity) == Resolve(old(View()), raw, rawType, sessionId, agentId)
    {
      if rawType == "subagent_spawn" || rawType == "handoff" {
        var child := NamedChild(raw);
        if child != "" {
          var root := if sessionId in lineageCache then lineageCache[sessionId] else sessionId;
          lineageCache := lineageCache[child := root];
          agentToEntity := agentToEntity[child := child];
          var parent := Or(raw.parentAgentId, agentId);
          if parent != "" {
            agentToEntity := agentToEntity[LATEST_CHILD_OF + parent := child];
          }
          return child;
        }
      }
      if rawType in FULFILLMENT_TYPES {
        if Or(raw.ticket, "") != "" {
          return Or(raw.ticket, "");
        }
        if rawType in MANAGER_TYPES {
          var childKey := LATEST_CHILD_OF + agentId;
          if childKey in agentToEntity && agentToEntity[childKey] != "" {
            return agentToEntity[childKey];
          }
        }
        if agentId in agentToEntity && agentToEntity[agentId] != "" {
          return agentToEntity[agentId];
        }
        return if sessionId != "" then sessionId else agentId;
      }
      if Or(raw.ticket, "") != "" {
        return Or(raw.ticket, "");
      }
      return if sessionId != "" then sessionId else agentId;
    }

    method IngestRaw(raw: Raw) returns (entity: Option<string>)
      modifies this
      ensures (View(), entity) == Ingest(old(View()), raw)
    {
      if TypeOf(raw) == "subagent_spawn" {
        entity := IngestSpawnDual(raw);
      } else {
        entity := Translate(raw);
      }
    }

    method Translate(raw: Raw) returns (entity: Option<string>)
      modifies this
      ensures (View(), entity) == Translated(old(View()), raw)
    {
      var rawType := TypeOf(raw);
      if !(rawType in OPENCLAW_TYPES || rawType in YSTAR_TYPES) {
        return None;
      }
      var e := ResolveEntityId(raw, rawType, SessionOf(raw), AgentOf(raw));
      entity := Some(e);
    }

    method IngestSpawnDual(raw: Raw) returns (entity: Option<string>)
      modifies this
      ensures (View(), entity) == SpawnDual(old(View()), raw)
    {
      var childAgent := Or(raw.childAgentId, "");
      var childId := Or(raw.ticket, childAgent);
      var parentId := SpawnParent(raw);
      var sessionId := SessionOf(raw);
      if childId == "" {
        entity := Translate(raw);
        return;
      }
      var root := if sessionId in lineageCache then lineageCache[sessionId] else sessionId;
      lineageCache := lineageCache[childId := root];
      agentToEntity := agentToEntity[childId := childId];
      if childAgent != "" && childAgent != childId {
        agentToEntity := agentToEntity[childAgent := childId];
        lineageCache := lineageCache[childAgent := root];
      }
      if parentId != "" {
        agentToEntity := agentToEntity[LATEST_CHILD_OF + parentId := childId];
      }
      entity := Some(childId);
    }

    method DiagnoseEvent(raw: Raw) returns (d: Diagnosis)
      ensures d == Diagnose(View(), raw)
      ensures d.failure == UnknownEventType <==> Translated(View(), raw).1 == None
      ensures Fulfills(TypeOf(raw)) && (Or(raw.ticket, "") != "" || !FromManager(TypeOf(raw))) && d.entity.Some? ==>
                d.entity == Ingest(View(), raw).1
    {
      var rawType, agentId, sessionId := TypeOf(raw), AgentOf(raw), SessionOf(raw);
      if !Known(rawType) {
        return Diagnosis(UnknownEventType, None);
      }
      var resolved := "";
      if Or(raw.ticket, "") != "" {
        resolved := Or(raw.ticket, "");
      } else if Binding(rawType) {
        resolved := Or(raw.childAgentId, "");
      } else if Fulfills(rawType) {
        if agentId in agentToEntity && agentToEntity[agentId] != "" {
          resolved := agentToEntity[agentId];
        } else {
          resolved := if sessionId != "" then sessionId else agentId;
        }
      }
      if resolved == "" {
        return Diagnosis(MissingEntityId, None);
      }
      var childKey := LATEST_CHILD_OF + agentId;
      var actorKnown := agentId in agentToEntity || (childKey in agentToEntity && agentToEntity[childKey] != "");
      return Diagnosis(if !actorKnown && Fulfills(rawType) then UnknownActor else Ok, Some(resolved));
    }

    method DebugRouting(rawType: string, agentId: string, sessionId: string, ticket: Field) returns (entity: string)
      modifies this
      ensures (View(), entity) == Resolve(old(View()), MockRaw(rawType, agentId, sessionId, ticket), rawType,
          sessionId, agentId)
    {
      entity := ResolveEntityId(MockRaw(rawType, agentId, sessionId, ticket), rawType, sessionId, agentId);
    }
  }
}
