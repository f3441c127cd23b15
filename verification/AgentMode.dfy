/** The timed mode record of an agent: its manager (scripts/agent_mode_manager.py) and the
    enforcer's reader of it (ystar/adapters/boundary_enforcer.py). */
module AgentMode {
  import opened Common

  const BOARD_SILENCE_THRESHOLD := 900.0
  const IDLE_TIMEOUT := 300.0
  const HARD_CAP := 1200.0

  datatype Mode = Standard | Autonomous | BreakGlass

  /** The mode file; trigger evidence is left out. */
  datatype Record = Record(mode: Mode, enteredAt: Option<real>, lastActivity: Option<real>,
                           expiresAt: Option<real>, trigger: Option<string>)

  const STANDARD := Record(Standard, None, None, None, None)

  /** A stored timestamp counts when it is present and not zero. */
  predicate Truthy(t: Option<real>) { t.Some? && t.value != 0.0 }

  predicate Elevated(r: Record) { r.mode != Standard }

  /** What one tick reads from the outside, in the order it reads it: its clock, the revocation
      check's clock, Board message and trigger, then the second Board message and trigger, and the
      clock of a mode entry. */
  datatype Reads = Reads(now: real, checkNow: real, checkBoard: Option<real>, checkTrigger: Option<string>,
                         board: Option<real>, trigger: Option<string>, enterNow: real)

  datatype Reason = NoReason | BoardMessage | IdleTimeout | HardCap | TriggersCleared

  function RevokeReason(r: Record, now: real, board: Option<real>, trigger: Option<string>): Reason {
    if Truthy(board) && Truthy(r.enteredAt) && board.value > r.enteredAt.value then BoardMessage
    else if r.mode == BreakGlass then
      if Truthy(r.lastActivity) && now - r.lastActivity.value > IDLE_TIMEOUT then IdleTimeout
      else if Truthy(r.enteredAt) && now - r.enteredAt.value > HARD_CAP then HardCap
      else if trigger.None? then TriggersCleared
      else NoReason
    else NoReason
  }

  function EnteredAutonomous(now: real): Record {
    Record(Autonomous, Some(now), Some(now), None, None)
  }

  function EnteredBreakGlass(trigger: string, now: real): Record {
    Record(BreakGlass, Some(now), Some(now), Some(now + HARD_CAP), Some(trigger))
  }

  function Revoked(r: Record): Record {
    if r.mode == Standard then r else STANDARD
  }

  /** The stored record with the activity stamp a tick writes first. */
  function Stamped(r: Record, now: real): Record {
    if Elevated(r) then r.(lastActivity := Some(now)) else r
  }

  /** The record after a tick, which is also what the tick returns. */
  function Tick(r: Record, e: Reads): Record {
    var current := Stamped(r, e.now);
    if RevokeReason(current, e.checkNow, e.checkBoard, e.checkTrigger) != NoReason then Revoked(current)
    else if current.mode == Standard && Truthy(e.board) && e.now - e.board.value > BOARD_SILENCE_THRESHOLD then
      EnteredAutonomous(e.enterNow)
    else if e.trigger.Some? && (current.mode != BreakGlass || current.trigger != e.trigger) then
      EnteredBreakGlass(e.trigger.value, e.enterNow)
    else current
  }

  /** What the enforcer takes the mode to be at a time. */
  function CurrentMode(r: Record, now: real): Record {
    if Truthy(r.expiresAt) && now > r.expiresAt.value then STANDARD else r
  }

  // ---- the manager as the class it is -------------------------------------------------

  class AgentModeManager {
    /** The mode file, absent at first. */
    var file: Option<Record>

    function Stored(): Record
      reads this
    {
      if file.Some? then file.value else STANDARD
    }

    constructor ()
      ensures Stored() == STANDARD
    {
      file := None;
    }

    method CheckShouldRevoke(current: Record, e: Reads) returns (reason: Reason)
      ensures reason == RevokeReason(current, e.checkNow, e.checkBoard, e.checkTrigger)
      ensures reason in {IdleTimeout, HardCap, TriggersCleared} ==> current.mode == BreakGlass
      ensures reason == NoReason && current.mode == BreakGlass && Truthy(current.enteredAt) ==>
                e.checkTrigger.Some? && e.checkNow <= current.enteredAt.value + HARD_CAP
      ensures reason == NoReason && Truthy(e.checkBoard) && Truthy(current.enteredAt) ==>
          e.checkBoard.value <= current.enteredAt.value
    {
      if Truthy(e.checkBoard) && Truthy(current.enteredAt) && e.checkBoard.value > current.enteredAt.value {
        return BoardMessage;
      }
      if current.mode == Autonomous {
        return NoReason;
      } else if current.mode == BreakGlass {
        if Truthy(current.lastActivity) && e.checkNow - current.lastActivity.value > IDLE_TIMEOUT {
          return IdleTimeout;
        }
        if Truthy(current.enteredAt) && e.checkNow - current.enteredAt.value > HARD_CAP {
          return HardCap;
        }
        if e.checkTrigger.None? {
          return TriggersCleared;
        }
      }
      return NoReason;
    }

    method EnterAutonomous(now: real)
      modifies this
      ensures Stored() == EnteredAutonomous(now)
    {
      file := Some(Record(Autonomous, Some(now), Some(now), None, None));
    }

    method EnterBreakGlass(trigger: string, now: real)
      modifies this
      ensures Stored() == EnteredBreakGlass(trigger, now)
    {
      file := Some(Record(BreakGlass, Some(now), Some(now), Some(now + HARD_CAP), Some(trigger)));
    }

    method Revoke()
      modifies this
      ensures Stored() == Revoked(old(Stored()))
    {
      var current := Stored();
      if current.mode == Standard {
        return;
      }
      file := Some(STANDARD);
    }

    method DoTick(e: Reads) returns (state: Record)
      modifies this
      ensures Stored() == Tick(old(Stored()), e) && state == Stored()
    {
      var current := Stored();
      if current.mode == Autonomous || current.mode == BreakGlass {
        current := current.(lastActivity := Some(e.now));
        file := Some(current);
      }
      var reason := CheckShouldRevoke(current, e);
      if reason != NoReason {
        Revoke();
        return Stored();
      }
      if current.mode == Standard {
        if Truthy(e.board) && e.now - e.board.value > BOARD_SILENCE_THRESHOLD {
          EnterAutonomous(e.enterNow);
          return Stored();
        }
      }
      if e.trigger.Some? {
        if current.mode != BreakGlass || current.trigger != e.trigger {
          EnterBreakGlass(e.trigger.value, e.enterNow);
          return Stored();
        }
      }
      return current;
    }
  }

  // ---- well-formed records over every run --------------------------------------------------

  /** A record is one of the three the manager means to store, entered no later than `now`. */
  ghost predicate WellFormed(r: Record, now: real) {
    match r.mode
    case Standard => r == STANDARD
    case Autonomous =>
      && r.enteredAt.Some? && 0.0 < r.enteredAt.value <= now && r.expiresAt.None? && r.trigger.None?
      && r.lastActivity.Some? && r.enteredAt.value <= r.lastActivity.value <= now
    case BreakGlass =>
      && r.enteredAt.Some? && 0.0 < r.enteredAt.value <= now && r.expiresAt == Some(r.enteredAt.value + HARD_CAP)
          && r.trigger.Some?
      && r.lastActivity.Some? && r.enteredAt.value <= r.lastActivity.value <= now
  }

  datatype Step =
    | DoTick(env: Reads)
    | ForceAutonomous(now: real)
    | ForceBreakGlass(trigger: string, now: real)
    | DoRevoke(now: real)

  function Apply(r: Record, s: Step): Record {
    match s
    case DoTick(e) => Tick(r, e)
    case ForceAutonomous(now) => EnteredAutonomous(now)
    case ForceBreakGlass(trigger, now) => EnteredBreakGlass(trigger, now)
    case DoRevoke(_) => Revoked(r)
  }

  function StartOf(s: Step): real { if s.DoTick? then s.env.now else s.now }
  function EndOf(s: Step): real { if s.DoTick? then s.env.enterNow else s.now }

  /** The clock of a step runs forward. */
  ghost predicate Timely(s: Step, from: real) {
    from <= StartOf(s) <= EndOf(s) && (s.DoTick? ==> s.env.now <= s.env.checkNow <= s.env.enterNow)
  }

  /** r reaches r' at time `until` through steps on a forward clock. */
  ghost predicate Run(r: Record, from: real, steps: seq<Step>, r': Record, until: real)
    decreases steps
  {
    if steps == [] then r' == r && until == from
    else Timely(steps[0], from) && Run(Apply(r, steps[0]), EndOf(steps[0]), steps[1..], r', until)
  }

  lemma ApplyWellFormed(r: Record, s: Step, from: real)
    requires 0.0 < from && WellFormed(r, from) && Timely(s, from)
    ensures WellFormed(Apply(r, s), EndOf(s))
  {
  }

  lemma {:induction false} RunsStayWellFormed(r: Record, from: real, steps: seq<Step>, r': Record, until: real)
    requires 0.0 < from && WellFormed(r, from) && Run(r, from, steps, r', until)
    ensures from <= until && WellFormed(r', until)
    decreases steps
  {
    if steps != [] {
      ApplyWellFormed(r, steps[0], from);
      RunsStayWellFormed(Apply(r, steps[0]), EndOf(steps[0]), steps[1..], r', until);
    }
  }

  /** In every run the enforcer reads break_glass no later than its entry plus the hard cap, even
      if no tick ever comes; and any other stored record it reads as it is. */
  lemma EnforcerHonoursHardCap(steps: seq<Step>, from: real, r: Record, until: real, now: real)
    requires 0.0 < from && Run(STANDARD, from, steps, r, until)
    ensures CurrentMode(r, now).mode == BreakGlass ==> r.enteredAt.Some? && now <= r.enteredAt.value + HARD_CAP
    ensures r.mode == BreakGlass ==>
        r.enteredAt.Some? && (CurrentMode(r, now) == r <==> now <= r.enteredAt.value + HARD_CAP)
    ensures r.mode != BreakGlass ==> CurrentMode(r, now) == r
  {
    RunsStayWellFormed(STANDARD, from, steps, r, until);
  }

  // ---- the Board ---------------------------------------------------------------------------

  /** After any run, a tick that sees a Board message not stamped in its future never returns an
      elevated mode entered before it. */
  lemma BoardMessageIsFinal(steps: seq<Step>, from: real, r: Record, until: real, e: Reads)
    requires 0.0 < from && Run(STANDARD, from, steps, r, until) && Timely(DoTick(e), until)
    requires Truthy(e.checkBoard) && e.checkBoard.value <= e.enterNow
    ensures Elevated(Tick(r, e)) ==> Tick(r, e).enteredAt.Some? && Tick(r, e).enteredAt.value >= e.checkBoard.value
    ensures Elevated(r) && r.enteredAt.Some? && e.checkBoard.value > r.enteredAt.value ==> Tick(r, e) == STANDARD
  {
    RunsStayWellFormed(STANDARD, from, steps, r, until);
  }

  /** With a stamp in the future the promise fails exactly when the tick enters a mode from standard. */
  lemma FutureStampFailsIff(r: Record, from: real, e: Reads)
    requires 0.0 < from && WellFormed(r, from) && Timely(DoTick(e), from) && Truthy(e.checkBoard)
    ensures (Elevated(Tick(r, e)) && Tick(r, e).enteredAt.value < e.checkBoard.value) <==>
              && e.checkBoard.value > e.enterNow && r.mode == Standard
              && (e.trigger.Some? || (Truthy(e.board) && e.now - e.board.value > BOARD_SILENCE_THRESHOLD))
  {
  }

  // ---- timeouts ------------------------------------------------------------------------------

  /** A tick revokes for idleness iff more than five minutes pass inside that one tick: it stamps
      the activity it then measures, so the silence before the tick never counts. */
  lemma IdleTimeoutIff(r: Record, from: real, e: Reads)
    requires 0.0 < from && WellFormed(r, from) && Timely(DoTick(e), from)
    ensures RevokeReason(Stamped(r, e.now), e.checkNow, e.checkBoard, e.checkTrigger) == IdleTimeout <==>
              && r.mode == BreakGlass && e.checkNow - e.now > IDLE_TIMEOUT
              && !(Truthy(e.checkBoard) && e.checkBoard.value > r.enteredAt.value)
  {
  }

  /** break_glass entered at 1 s and first ticked at 1000 s, after 999 s of silence, goes on. */
  lemma SilenceKeepsBreakGlass()
    ensures var e := Reads(1000.0, 1000.0, None, Some("T1"), None, Some("T1"), 1000.0);
            && Timely(DoTick(e), 1.0) && e.now - EnteredBreakGlass("T1", 1.0).lastActivity.value > IDLE_TIMEOUT
            && Tick(EnteredBreakGlass("T1", 1.0), e) == EnteredBreakGlass("T1", 1.0).(lastActivity := Some(1000.0))
  {
  }

  /** The Board has spoken since the record's mode was entered. */
  predicate BoardSpoke(r: Record, e: Reads) {
    r.enteredAt.Some? && Truthy(e.checkBoard) && e.checkBoard.value > r.enteredAt.value
  }

  /** Nothing in the tick ends a break_glass claim. */
  predicate ClaimHolds(r: Record, e: Reads) {
    && !BoardSpoke(r, e)
    && e.checkNow - e.now <= IDLE_TIMEOUT
    && (r.enteredAt.Some? ==> e.checkNow <= r.enteredAt.value + HARD_CAP)
    && e.checkTrigger.Some?
  }

  /** A break_glass claim survives a tick iff the Board was silent, the tick itself was no longer than the
      idle timeout, the cap was not passed, the revocation check found some trigger, and the second look
      found none or the claim's own. break_glass follows a tick iff a claim survived it or that second look
      found a trigger to claim anew: another one under a claim that holds, any under a mode that stays. */
  lemma ClaimsAreCapped(r: Record, from: real, e: Reads)
    requires 0.0 < from && WellFormed(r, from) && Timely(DoTick(e), from)
    ensures r.mode == BreakGlass && Tick(r, e).mode == BreakGlass && Tick(r, e).trigger == r.trigger <==>
              r.mode == BreakGlass && ClaimHolds(r, e) && (e.trigger.None? || e.trigger == r.trigger)
    ensures r.mode == BreakGlass && Tick(r, e).mode == BreakGlass && Tick(r, e).trigger == r.trigger ==>
        Tick(r, e).enteredAt == r.enteredAt
    ensures Tick(r, e).mode == BreakGlass <==>
              match r.mode
              case BreakGlass => ClaimHolds(r, e)
              case Autonomous => e.trigger.Some? && !BoardSpoke(r, e)
              case Standard => e.trigger.Some? && !(Truthy(e.board) && e.now - e.board.value > BOARD_SILENCE_THRESHOLD)
    ensures Tick(r, e).mode == BreakGlass && !(r.mode == BreakGlass && Tick(r, e).trigger == r.trigger) ==>
              e.trigger.Some? && Tick(r, e) == EnteredBreakGlass(e.trigger.value, e.enterNow)
  {
  }

  /** The record after a tick, from each of the three modes, thresholds written out. */
  ghost predicate TickFrom(r: Record, e: Reads, t: Record) {
    match r.mode
    case Standard =>
      if e.board.Some? && e.board.value != 0.0 && e.now - e.board.value > 900.0 then
        t == Record(Autonomous, Some(e.enterNow), Some(e.enterNow), None, None)
      else if e.trigger.Some? then
        t == Record(BreakGlass, Some(e.enterNow), Some(e.enterNow), Some(e.enterNow + 1200.0), e.trigger)
      else t == STANDARD
    case Autonomous =>
      if BoardSpoke(r, e) then t == STANDARD
      else if e.trigger.Some? then
        t == Record(BreakGlass, Some(e.enterNow), Some(e.enterNow), Some(e.enterNow + 1200.0), e.trigger)
      else t == r.(lastActivity := Some(e.now))
    case BreakGlass =>
      if || BoardSpoke(r, e) || e.checkNow - e.now > 300.0
         || (r.enteredAt.Some? && e.checkNow > r.enteredAt.value + 1200.0) || e.checkTrigger.None? then
        t == STANDARD
      else if e.trigger.Some? && e.trigger != r.trigger then
        t == Record(BreakGlass, Some(e.enterNow), Some(e.enterNow), Some(e.enterNow + 1200.0), e.trigger)
      else t == r.(lastActivity := Some(e.now))
  }

  lemma TickIsExactly(r: Record, from: real, e: Reads)
    requires 0.0 < from && WellFormed(r, from) && Timely(DoTick(e), from)
    ensures TickFrom(r, e, Tick(r, e))
  {
  }

  /** Over a whole run of ticks: autonomous mode lasts as long as the Board stays silent and no second look finds
      a trigger, and keeps the time it was entered, however many ticks come. */
  lemma {:induction false} AutonomousLasts(r: Record, from: real, steps: seq<Step>, r': Record, until: real)
    requires 0.0 < from && WellFormed(r, from) && r.mode == Autonomous && Run(r, from, steps, r', until)
    requires forall i :: 0 <= i < |steps| ==>
               steps[i].DoTick? && steps[i].env.trigger.None? && !BoardSpoke(r, steps[i].env)
    ensures r'.mode == Autonomous && r'.enteredAt == r.enteredAt
    ensures steps != [] ==> r'.lastActivity == Some(steps[|steps| - 1].env.now)
    decreases steps
  {
    if steps != [] {
      var t := Apply(r, steps[0]);
      ApplyWellFormed(r, steps[0], from);
      assert t == r.(lastActivity := Some(steps[0].env.now));
      assert forall e :: BoardSpoke(t, e) == BoardSpoke(r, e);
      AutonomousLasts(t, EndOf(steps[0]), steps[1..], r', until);
    }
  }

  /** Which reason a revocation gives: a Board message comes first, then idleness, the cap, and no trigger left. */
  lemma ReasonsInOrder(r: Record, from: real, e: Reads)
    requires 0.0 < from && WellFormed(r, from) && Timely(DoTick(e), from)
    ensures var reason := RevokeReason(Stamped(r, e.now), e.checkNow, e.checkBoard, e.checkTrigger);
            var late := r.enteredAt.Some? && e.checkNow - r.enteredAt.value > 1200.0;
            var silent := r.mode == BreakGlass && !BoardSpoke(r, e);
            && (reason == BoardMessage <==> BoardSpoke(r, e))
            && (reason == IdleTimeout <==> silent && e.checkNow - e.now > 300.0)
            && (reason == HardCap <==> silent && e.checkNow - e.now <= 300.0 && late)
            && (reason == TriggersCleared <==> silent && e.checkNow - e.now <= 300.0 && !late && e.checkTrigger.None?)
            && (reason == NoReason || (Elevated(r) && Tick(r, e) == STANDARD))
  {
  }

  /** The enforcer's reading in numbers: break_glass for twenty minutes from its entry, then standard. */
  lemma BreakGlassLastsTwentyMinutes(trigger: string, entered: real, now: real)
    requires entered > 0.0
    ensures CurrentMode(EnteredBreakGlass(trigger, entered), now).mode
         == if now - entered <= 1200.0 then BreakGlass else Standard
  {
  }

  /** Alternating triggers keep the mode up without end: a run of any number of ticks, one per
      second, each of which finds the other trigger. */
  function Seesaw(n: nat): seq<Step> {
    if n == 0 then []
    else
      var t := n as real;
      Seesaw(n - 1) + [DoTick(Reads(t, t, None, Some("T1"), None, Some(if n % 2 == 0 then "T1" else "T2"), t))]
  }

  lemma {:induction false} RunSnoc(r: Record, from: real, steps: seq<Step>, r': Record, until: real, s: Step)
    requires Run(r, from, steps, r', until) && Timely(s, until)
    ensures Run(r, from, steps + [s], Apply(r', s), EndOf(s))
    decreases steps
  {
    if steps == [] {
      assert [s][1..] == [] && steps + [s] == [s];
    } else {
      RunSnoc(Apply(r, steps[0]), EndOf(steps[0]), steps[1..], r', until, s);
      assert (steps + [s])[1..] == steps[1..] + [s];
    }
  }

  lemma {:induction false} CapRestartsForever(n: nat)
    requires n >= 1
    ensures Run(STANDARD, 1.0, Seesaw(n), EnteredBreakGlass(if n % 2 == 0 then "T1" else "T2", n as real), n as real)
  {
    var t := n as real;
    var s := DoTick(Reads(t, t, None, Some("T1"), None, Some(if n % 2 == 0 then "T1" else "T2"), t));
    assert "T1" != "T2" by { assert "T1"[1] != "T2"[1]; }
    if n == 1 {
      assert Seesaw(0) == [] && Seesaw(1) == [s] && [s][1..] == [];
    } else {
      CapRestartsForever(n - 1);
      var before := EnteredBreakGlass(if (n - 1) % 2 == 0 then "T1" else "T2", (n - 1) as real);
      assert (n - 1) as real == t - 1.0;
      RunSnoc(STANDARD, 1.0, Seesaw(n - 1), before, (n - 1) as real, s);
    }
  }
}
