/** Raising, recording, delivering and closing alerts
    (business/domain/integrationbus/integrationbus.go and threshold.go, over the
    statements of stores/integrationdb/alertevents.go).

    The alert_events table is a sequence of rows; a row's position is its id. Beside
    the table the model keeps a log of what left the system: a delivery for every
    firing that passed suppression and whose SendAlert returned no error, and a
    resolution for every event that was closed. */
module AlertBus {
  import opened Basics
  import opened Text
  import opened Suppression

  type EventId = nat

  datatype LogItem =
    | Delivery(rule: RuleId, key: string, event: EventId, at: int, marked: bool, sent: bool)
    | Resolution(rule: RuleId, key: string, event: EventId, at: int)

  datatype AlertState = AlertState(rows: seq<AlertEvent>, log: seq<LogItem>)

  // ---------------------------------------------------------------------------
  // The store

  predicate IsOpen(e: AlertEvent, rule: RuleId, key: string)
  {
    e.rule == rule && e.key == key && e.state != Resolved
  }

  /** QueryOpenEvent: the unresolved event of a rule and key. */
  function FindOpen(rows: seq<AlertEvent>, rule: RuleId, key: string): (r: Option<EventId>)
    ensures r.Some? ==> r.value < |rows| && IsOpen(rows[r.value], rule, key)
    ensures r.None? ==> forall i :: 0 <= i < |rows| ==> !IsOpen(rows[i], rule, key)
  {
    if rows == [] then None
    else if IsOpen(rows[|rows| - 1], rule, key) then Some(|rows| - 1)
    else FindOpen(rows[..|rows| - 1], rule, key)
  }

  datatype FiringRecord = FiringRecord(rule: RuleId, key: string, summary: string, level: string, matchCount: int,
                                       at: int)

  /** RecordFiring: opens an alert or folds a repeat into the open one. */
  function RecordFiring(rows: seq<AlertEvent>, f: FiringRecord): (seq<AlertEvent>, EventId)
  {
    match FindOpen(rows, f.rule, f.key)
    case Some(i) =>
      (rows[i := rows[i].(lastSeenAt := f.at, matchCount := rows[i].matchCount + f.matchCount,
                          summary := f.summary, level := f.level)], i)
    case None =>
      (rows + [AlertEvent(f.rule, f.key, Firing, f.summary, f.level, f.matchCount, f.at, f.at, None, None, None, None)],
       |rows|)
  }

  function MarkNotified(rows: seq<AlertEvent>, id: EventId, at: int): seq<AlertEvent>
  {
    if id < |rows| then rows[id := rows[id].(lastNotifiedAt := Some(at))] else rows
  }

  function AcknowledgeEvent(rows: seq<AlertEvent>, id: EventId, user: UserId, at: int): seq<AlertEvent>
  {
    if id < |rows| && rows[id].state == Firing then
      rows[id := rows[id].(state := Acknowledged, acknowledgedAt := Some(at), acknowledgedBy := Some(user))]
    else rows
  }

  function ResolveEvent(s: AlertState, id: EventId, at: int): AlertState
  {
    if id < |s.rows| && s.rows[id].state != Resolved then
      AlertState(s.rows[id := s.rows[id].(state := Resolved, resolvedAt := Some(at))],
                 s.log + [Resolution(s.rows[id].rule, s.rows[id].key, id, at)])
    else s
  }

  // ---------------------------------------------------------------------------
  // Raising

  datatype Integration = Integration(provider: string, enabled: bool)

  datatype SendResult = Sent | Skipped | SendFailed

  /** What the stores and the provider do during one raise. */
  datatype World = World(queryOk: bool, recordOk: bool, connection: Option<Integration>, callers: set<string>,
                         accepted: bool, markOk: bool)

  /** A disabled connection is no error: nothing is sent and the caller carries on. */
  function SendAlert(w: World): SendResult
  {
    if w.connection.None? then SendFailed
    else if !w.connection.value.enabled then Skipped
    else if w.connection.value.provider !in w.callers then SendFailed
    else if w.accepted then Sent
    else SendFailed
  }

  datatype RaiseResult = Raised(verdict: Verdict) | QueryFailed | RecordFailed | NotSent | NotMarked

  function Summary(message: string, matched: nat): string
  {
    if matched > 1 then message + " (+" + Decimal(matched - 1) + " more matching logs)" else message
  }

  function FiringOf(rule: AlertRule, rep: AlertPayload, matched: nat, now: int): FiringRecord
  {
    FiringRecord(rule.id, DedupKey(rule.condition, rep.level), Summary(rep.message, matched), rep.level, matched, now)
  }

  function InputFor(rule: AlertRule, prior: Option<AlertEvent>, windows: seq<MaintenanceWindow>,
                    now: int): SuppressInput
  {
    SuppressInput(now, rule.isActive, rule.snoozeUntil, DedupWindow(rule), rule.project, prior, windows)
  }

  function PriorEvent(rows: seq<AlertEvent>, rule: RuleId, key: string): Option<AlertEvent>
  {
    match FindOpen(rows, rule, key)
    case Some(i) => Some(rows[i])
    case None => None
  }

  function VerdictOn(s: AlertState, rule: AlertRule, rep: AlertPayload, windows: seq<MaintenanceWindow>,
                     now: int): Verdict
  {
    ShouldNotify(InputFor(rule, PriorEvent(s.rows, rule.id, DedupKey(rule.condition, rep.level)), windows, now))
  }

  /** Record, decide on the state before the recording, send, mark. */
  function Raise(s: AlertState, rule: AlertRule, rep: AlertPayload, matched: nat, windows: seq<MaintenanceWindow>,
                 now: int, w: World): (AlertState, RaiseResult)
  {
    if !w.queryOk then (s, QueryFailed)
    else if !w.recordOk then (s, RecordFailed)
    else
      var firing := FiringOf(rule, rep, matched, now);
      var (rows, id) := RecordFiring(s.rows, firing);
      var verdict := VerdictOn(s, rule, rep, windows, now);
      if verdict != Deliver then (AlertState(rows, s.log), Raised(verdict))
      else
        var sent := SendAlert(w);
        if sent == SendFailed then (AlertState(rows, s.log), NotSent)
        else
          var log := s.log + [Delivery(rule.id, firing.key, id, now, w.markOk, sent == Sent)];
          if w.markOk then (AlertState(MarkNotified(rows, id, now), log), Raised(Deliver))
          else (AlertState(rows, log), NotMarked)
  }

  // ---------------------------------------------------------------------------
  // One batch of logs

  function Matcher(c: Condition): AlertPayload -> bool
  {
    p => MatchesLog(c, p)
  }

  /** How many payloads match, and the first of the most severe ones. */
  function MatchPayloads(matches: AlertPayload -> bool, payloads: seq<AlertPayload>): (r: (nat, Option<AlertPayload>))
    ensures r.0 > 0 <==> r.1.Some?
  {
    if payloads == [] then (0, None)
    else
      var (matched, rep) := MatchPayloads(matches, payloads[..|payloads| - 1]);
      var p := payloads[|payloads| - 1];
      if !matches(p) then (matched, rep)
      else (matched + 1,
            if rep.None? || SeverityRank(p.level) > SeverityRank(rep.value.level) then Some(p) else rep)
  }

  /** FireAlerts for one rule. */
  function FireOne(s: AlertState, rule: AlertRule, payloads: seq<AlertPayload>, windows: seq<MaintenanceWindow>,
                   now: int, w: World): AlertState
  {
    if NeedsEvaluator(rule.condition) then s
    else
      var (matched, rep) := MatchPayloads(Matcher(rule.condition), payloads);
      if matched == 0 then s else Raise(s, rule, rep.value, matched, windows, now, w).0
  }

  function FireAll(s: AlertState, rules: seq<AlertRule>, payloads: seq<AlertPayload>, windows: seq<MaintenanceWindow>,
                   now: int, worlds: seq<World>): AlertState
    requires |worlds| == |rules|
  {
    if rules == [] then s
    else
      var n := |rules| - 1;
      FireOne(FireAll(s, rules[..n], payloads, windows, now, worlds[..n]), rules[n], payloads, windows, now, worlds[n])
  }

  // ---------------------------------------------------------------------------
  // One threshold pass

  /** A query that names levels takes the most severe of them; otherwise ERROR. */
  function MostSevere(levels: seq<string>): string
  {
    if levels == [] then ""
    else
      var best := MostSevere(levels[..|levels| - 1]);
      if SeverityRank(levels[|levels| - 1]) > SeverityRank(best) then levels[|levels| - 1] else best
  }

  function ThresholdLevel(q: Query): string
  {
    if MostSevere(q.levels) == "" then "ERROR" else MostSevere(q.levels)
  }

  /** What one rule meets during a pass: the count, or None when counting failed, the
      text of the notification, whether the resolving statement succeeds, and the
      world of a raise. */
  datatype Pass = Pass(matched: Option<nat>, message: string, resolveOk: bool, world: World)

  function ResolveOpen(s: AlertState, rule: AlertRule, now: int, p: Pass): AlertState
  {
    if !p.world.queryOk then s
    else match FindOpen(s.rows, rule.id, DedupKey(rule.condition, ""))
      case None => s
      case Some(id) => if p.resolveOk then ResolveEvent(s, id, now) else s
  }

  /** EvaluateThresholds for one rule, and whether it counts as fired. */
  function EvaluateOne(s: AlertState, rule: AlertRule, windows: seq<MaintenanceWindow>, now: int,
                       p: Pass): (AlertState, bool)
  {
    if !rule.condition.ThresholdCondition? || rule.condition.query.None? || p.matched.None? then (s, false)
    else if !Satisfied(rule.condition, p.matched.value) then (ResolveOpen(s, rule, now, p), false)
    else
      var payload := AlertPayload(ThresholdLevel(rule.condition.query.value), p.message, "alerting");
      var (s1, r) := Raise(s, rule, payload, p.matched.value, windows, now, p.world);
      (s1, r.Raised?)
  }

  function EvaluateAll(s: AlertState, rules: seq<AlertRule>, windowsOf: OrgId -> seq<MaintenanceWindow>, now: int,
                       passes: seq<Pass>): (AlertState, nat)
    requires |passes| == |rules|
  {
    if rules == [] then (s, 0)
    else
      var n := |rules| - 1;
      var (s1, fired) := EvaluateAll(s, rules[..n], windowsOf, now, passes[..n]);
      var (s2, one) := EvaluateOne(s1, rules[n], windowsOf(rules[n].org), now, passes[n]);
      (s2, if one then fired + 1 else fired)
  }

  // ---------------------------------------------------------------------------
  // The service

  class Alerting {
    var rows: seq<AlertEvent>
    ghost var log: seq<LogItem>

    ghost function State(): AlertState
      reads this
    {
      AlertState(rows, log)
    }

    constructor ()
      ensures State() == AlertState([], [])
    {
      rows, log := [], [];
    }

    method RaiseAlert(rule: AlertRule, rep: AlertPayload, matched: nat, windows: seq<MaintenanceWindow>, now: int,
                      w: World)
      returns (r: RaiseResult)
      modifies this
      ensures (State(), r) == Raise(old(State()), rule, rep, matched, windows, now, w)
    {
      var key := DedupKey(rule.condition, rep.level);
      if !w.queryOk {
        return QueryFailed;
      }
      var prior := PriorEvent(rows, rule.id, key);

      var summary := rep.message;
      if matched > 1 {
        summary := summary + " (+" + Decimal(matched - 1) + " more matching logs)";
      }
      if !w.recordOk {
        return RecordFailed;
      }
      var (recorded, id) := RecordFiring(rows, FiringRecord(rule.id, key, summary, rep.level, matched, now));
      rows := recorded;

      var verdict := ShouldNotify(InputFor(rule, prior, windows, now));
      if verdict != Deliver {
        return Raised(verdict);
      }
      var sent := SendAlert(w);
      if sent == SendFailed {
        return NotSent;
      }
      log := log + [Delivery(rule.id, key, id, now, w.markOk, sent == Sent)];
      if !w.markOk {
        return NotMarked;
      }
      rows := MarkNotified(rows, id, now);
      return Raised(Deliver);
    }

    method Match(matches: AlertPayload -> bool, payloads: seq<AlertPayload>)
      returns (matched: nat, rep: Option<AlertPayload>)
      ensures (matched, rep) == MatchPayloads(matches, payloads)
    {
      matched, rep := 0, None;
      for i := 0 to |payloads|
        invariant (matched, rep) == MatchPayloads(matches, payloads[..i])
      {
        assert payloads[..i + 1][..i] == payloads[..i];
        var p := payloads[i];
        if matches(p) {
          matched := matched + 1;
          if rep.None? || SeverityRank(p.level) > SeverityRank(rep.value.level) {
            rep := Some(p);
          }
        }
      }
      assert payloads[..|payloads|] == payloads;
    }

    /** loaded is the project's active rules, nothing when loading them fails, and windows
        what the maintenance lookup answers, empty when that fails. A rule that fails to
        raise does not stop the rules behind it. */
    method FireAlerts(loaded: Option<seq<AlertRule>>, payloads: seq<AlertPayload>, windows: seq<MaintenanceWindow>,
                      now: int, worlds: seq<World>)
      returns (failed: bool)
      requires loaded.Some? ==> |worlds| == |loaded.value|
      modifies this
      ensures failed <==> payloads != [] && loaded.None?
      ensures State() == if payloads == [] || loaded.None? then old(State())
                         else FireAll(old(State()), loaded.value, payloads, windows, now, worlds)
    {
      if |payloads| == 0 {
        return false;
      }
      if loaded.None? {
        return true;
      }
      var rules := loaded.value;
      ghost var start := State();
      for i := 0 to |rules|
        invariant State() == FireAll(start, rules[..i], payloads, windows, now, worlds[..i])
      {
        assert rules[..i + 1][..i] == rules[..i] && worlds[..i + 1][..i] == worlds[..i];
        var rule := rules[i];
        if NeedsEvaluator(rule.condition) {
          continue;
        }
        var matched, rep := Match(Matcher(rule.condition), payloads);
        if matched == 0 {
          continue;
        }
        var r := RaiseAlert(rule, rep.value, matched, windows, now, worlds[i]);
      }
      assert rules[..|rules|] == rules && worlds[..|rules|] == worlds;
      return false;
    }

    /** Maintenance windows are looked up once per organization and pass; windowsOf is
        what the store answers at `now`, none when the lookup fails, and loaded the
        threshold rules, nothing when loading them fails. */
    method EvaluateThresholds(loaded: Option<seq<AlertRule>>, windowsOf: OrgId -> seq<MaintenanceWindow>, now: int,
                              passes: seq<Pass>)
      returns (fired: Option<nat>)
      requires loaded.Some? ==> |passes| == |loaded.value|
      modifies this
      ensures fired.None? <==> loaded.None?
      ensures loaded.None? ==> State() == old(State())
      ensures loaded.Some? ==> (State(), fired.value) == EvaluateAll(old(State()), loaded.value, windowsOf, now, passes)
    {
      if loaded.None? {
        return None;
      }
      var count := EvaluateRules(loaded.value, windowsOf, now, passes);
      return Some(count);
    }

    method EvaluateRules(rules: seq<AlertRule>, windowsOf: OrgId -> seq<MaintenanceWindow>, now: int, passes: seq<Pass>)
      returns (fired: nat)
      requires |passes| == |rules|
      modifies this
      ensures (State(), fired) == EvaluateAll(old(State()), rules, windowsOf, now, passes)
    {
      fired := 0;
      ghost var start := State();
      var windowsByOrg: map<OrgId, seq<MaintenanceWindow>> := map[];
      for i := 0 to |rules|
        invariant (State(), fired) == EvaluateAll(start, rules[..i], windowsOf, now, passes[..i])
        invariant forall org :: org in windowsByOrg ==> windowsByOrg[org] == windowsOf(org)
      {
        assert rules[..i + 1][..i] == rules[..i] && passes[..i + 1][..i] == passes[..i];
        var rule, p := rules[i], passes[i];
        if !rule.condition.ThresholdCondition? || rule.condition.query.None? || p.matched.None? {
          continue;
        }
        if !Satisfied(rule.condition, p.matched.value) {
          CloseOpen(rule, now, p);
          continue;
        }
        if rule.org !in windowsByOrg {
          windowsByOrg := windowsByOrg[rule.org := windowsOf(rule.org)];
        }
        var payload := AlertPayload(ThresholdLevel(rule.condition.query.value), p.message, "alerting");
        var r := RaiseAlert(rule, payload, p.matched.value, windowsByOrg[rule.org], now, p.world);
        if r.Raised? {
          fired := fired + 1;
        }
      }
      assert rules[..|rules|] == rules && passes[..|rules|] == passes;
    }

    method CloseOpen(rule: AlertRule, now: int, p: Pass)
      modifies this
      ensures State() == ResolveOpen(old(State()), rule, now, p)
    {
      if !p.world.queryOk {
        return;
      }
      var id := FindOpen(rows, rule.id, DedupKey(rule.condition, ""));
      if id.None? || !p.resolveOk {
        return;
      }
      ResolveAlert(id.value, now);
    }

    method AcknowledgeAlert(id: EventId, user: UserId, now: int)
      modifies this
      ensures State() == AlertState(AcknowledgeEvent(old(rows), id, user, now), old(log))
    {
      rows := AcknowledgeEvent(rows, id, user, now);
    }

    method ResolveAlert(id: EventId, now: int)
      modifies this
      ensures State() == ResolveEvent(old(State()), id, now)
    {
      if id < |rows| && rows[id].state != Resolved {
        log := log + [Resolution(rows[id].rule, rows[id].key, id, now)];
        rows := rows[id := rows[id].(state := Resolved, resolvedAt := Some(now))];
      }
    }
  }
}
