/** Alert rules, their conditions, and the decision whether a firing is delivered
    (business/domain/integrationbus/condition.go, model.go and suppress.go).

    Instants and durations are integer nanoseconds. */
module Suppression {
  import opened Basics
  import opened Text

  const SECOND: int := 1_000_000_000
  const DEFAULT_DEDUP_WINDOW: int := 5 * 60 * SECOND

  type RuleId = nat
  type OrgId = nat
  type ProjectId = nat
  type UserId = nat

  // ---------------------------------------------------------------------------
  // 64-bit durations

  const TWO_63: int := 0x8000_0000_0000_0000

  /** Multiplication of int64 values wraps around. */
  function Wrap64(n: int): int { (n + TWO_63) % (2 * TWO_63) - TWO_63 }

  /** time.Time.Sub saturates. */
  function Sub(a: int, b: int): int
  {
    if a - b >= TWO_63 then TWO_63 - 1 else if a - b < -TWO_63 then -TWO_63 else a - b
  }

  // ---------------------------------------------------------------------------
  // Conditions

  datatype Query = Query(levels: seq<string>, contains: string, source: string)

  datatype Condition =
    | LevelCondition(level: string)
    | MatchCondition(query: Option<Query>)
    | ThresholdCondition(query: Option<Query>, windowSeconds: int, count: int, comparatorGt: bool)
    | UnknownCondition

  datatype AlertPayload = AlertPayload(level: string, message: string, source: string)

  /** Higher is more severe; unknown levels rank below DEBUG. */
  function SeverityRank(level: string): int
  {
    if level == "DEBUG" then 0
    else if level == "INFO" then 1
    else if level == "WARN" then 2
    else if level == "ERROR" then 3
    else -1
  }

  predicate IsZero(q: Query)
  {
    q.levels == [] && TrimSpace(q.contains) == "" && TrimSpace(q.source) == ""
  }

  predicate QueryMatches(q: Query, p: AlertPayload)
  {
    var contains, source := TrimSpace(q.contains), TrimSpace(q.source);
    && !IsZero(q)
    && (q.levels != [] ==> exists i :: 0 <= i < |q.levels| && EqualFold(q.levels[i], p.level))
    && (contains != "" ==> Contains(ToLower(p.message), ToLower(contains)))
    && (source != "" ==> EqualFold(source, p.source))
  }

  predicate MatchesLog(c: Condition, p: AlertPayload)
  {
    match c
    case LevelCondition(level) =>
      SeverityRank(p.level) >= 0 && SeverityRank(level) >= 0 && SeverityRank(p.level) >= SeverityRank(level)
    case MatchCondition(q) => q.Some? && QueryMatches(q.value, p)
    case ThresholdCondition(q, _, _, _) => q.Some? && QueryMatches(q.value, p)
    case UnknownCondition => false
  }

  predicate Satisfied(c: Condition, matched: int)
  {
    if !c.ThresholdCondition? then matched > 0
    else if c.comparatorGt then matched > c.count
    else matched >= c.count
  }

  predicate NeedsEvaluator(c: Condition) { c.ThresholdCondition? }

  /** Which open alert a firing belongs to. */
  function DedupKey(c: Condition, level: string): string
  {
    if c.ThresholdCondition? then "threshold" else ToUpper(TrimSpace(level))
  }

  // ---------------------------------------------------------------------------
  // Rules, windows and events

  datatype AlertRule = AlertRule(id: RuleId, org: OrgId, project: ProjectId, condition: Condition,
                                 dedupWindowSeconds: int, snoozeUntil: Option<int>, isActive: bool)

  function DedupWindow(r: AlertRule): int
  {
    if r.dedupWindowSeconds <= 0 then DEFAULT_DEDUP_WINDOW else Wrap64(r.dedupWindowSeconds * SECOND)
  }

  datatype MaintenanceWindow = MaintenanceWindow(org: OrgId, project: Option<ProjectId>, startsAt: int, endsAt: int)

  /** Half-open; no project means every project of the organization. */
  predicate Covers(w: MaintenanceWindow, project: ProjectId, at: int)
  {
    (w.project.Some? ==> w.project.value == project) && w.startsAt <= at < w.endsAt
  }

  datatype EventState = Firing | Acknowledged | Resolved

  datatype AlertEvent = AlertEvent(rule: RuleId, key: string, state: EventState, summary: string, level: string,
                                   matchCount: int, firstSeenAt: int, lastSeenAt: int, lastNotifiedAt: Option<int>,
                                   resolvedAt: Option<int>, acknowledgedAt: Option<int>, acknowledgedBy: Option<UserId>)

  // ---------------------------------------------------------------------------
  // The decision

  datatype Verdict = Deliver | Dedup | Snoozed | Maintenance | Owned | Inactive

  datatype SuppressInput = SuppressInput(now: int, ruleActive: bool, snoozeUntil: Option<int>, dedupWindow: int,
                                         project: ProjectId, existing: Option<AlertEvent>,
                                         maintenances: seq<MaintenanceWindow>)

  function EffectiveWindow(window: int): int
  {
    if window <= 0 then DEFAULT_DEDUP_WINDOW else window
  }

  function ShouldNotify(input: SuppressInput): Verdict
  {
    if !input.ruleActive then Inactive
    else if input.snoozeUntil.Some? && input.now < input.snoozeUntil.value then Snoozed
    else if exists i :: 0 <= i < |input.maintenances| && Covers(input.maintenances[i], input.project, input.now)
            then Maintenance
    else if input.existing.None? || input.existing.value.state == Resolved then Deliver
    else if input.existing.value.state == Acknowledged then Owned
    else if input.existing.value.lastNotifiedAt.None? then Deliver
    else if Sub(input.now, input.existing.value.lastNotifiedAt.value) >= EffectiveWindow(input.dedupWindow) then Deliver
    else Dedup
  }

  // ---------------------------------------------------------------------------
  // Facts about the decision

  /** A rule's window is always positive, also when its seconds overflow, and is what
      the rule says whenever that fits a duration. */
  lemma {:induction false} WindowIsPositive(r: AlertRule)
    ensures 0 < EffectiveWindow(DedupWindow(r)) < TWO_63
    ensures 0 < r.dedupWindowSeconds <= 9_223_372_036 ==>
              EffectiveWindow(DedupWindow(r)) == r.dedupWindowSeconds * SECOND
    ensures r.dedupWindowSeconds <= 0 ==> EffectiveWindow(DedupWindow(r)) == 300 * SECOND
  {
  }

  /** Dedup delivers again only when the whole window has passed, saturation included. */
  lemma {:induction false} DeliveredAfterWindow(input: SuppressInput)
    requires ShouldNotify(input) == Deliver
    requires input.existing.Some? && input.existing.value.state != Resolved && input.existing.value.lastNotifiedAt.Some?
    ensures input.existing.value.state == Firing
    ensures input.now - input.existing.value.lastNotifiedAt.value >= EffectiveWindow(input.dedupWindow)
  {
  }

  /** SELECT ... WHERE org_id = :org_id AND starts_at <= :at AND ends_at > :at. */
  function ActiveWindows(all: seq<MaintenanceWindow>, org: OrgId, at: int): seq<MaintenanceWindow>
  {
    if all == [] then []
    else (if all[0].org == org && all[0].startsAt <= at < all[0].endsAt then [all[0]] else [])
         + ActiveWindows(all[1..], org, at)
  }

  lemma {:induction false} ActiveWindowsMembers(all: seq<MaintenanceWindow>, org: OrgId, at: int)
    ensures forall w :: w in ActiveWindows(all, org, at) <==> w in all && w.org == org && w.startsAt <= at < w.endsAt
    decreases |all|
  {
    if all != [] {
      ActiveWindowsMembers(all[1..], org, at);
      assert all == [all[0]] + all[1..];
    }
  }

  /** Loading only the windows that cover the instant decides as if every window of
      the organization had been loaded. */
  lemma {:induction false} PreselectionIsInvisible(input: SuppressInput, all: seq<MaintenanceWindow>, org: OrgId)
    requires forall w :: w in all ==> w.org == org
    ensures ShouldNotify(input.(maintenances := ActiveWindows(all, org, input.now)))
         == ShouldNotify(input.(maintenances := all))
  {
    ActiveWindowsMembers(all, org, input.now);
    var some := ActiveWindows(all, org, input.now);
    if i :| 0 <= i < |all| && Covers(all[i], input.project, input.now) {
      assert all[i] in some;
      var j :| 0 <= j < |some| && some[j] == all[i];
      assert Covers(some[j], input.project, input.now);
    }
    if j :| 0 <= j < |some| && Covers(some[j], input.project, input.now) {
      assert some[j] in all;
      var i :| 0 <= i < |all| && all[i] == some[j];
      assert Covers(all[i], input.project, input.now);
    }
  }
}
