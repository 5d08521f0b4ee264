/** Who is paged, when, and what the row of an alert says afterwards, in terms of the rule,
    the windows and the rows alone (business/domain/integrationbus/suppress.go and
    integrationbus.go). No decision function of the model is named in the conditions. */
module AlertLaws {
  import opened Basics
  import opened Text
  import opened Suppression
  import opened AlertBus
  import opened AlertRuns
  import opened AlertBatches

  // ---------------------------------------------------------------------------
  // What the conditions speak of

  /** The rule is active and not snoozed any more. */
  predicate Awake(rule: AlertRule, now: int)
  {
    rule.isActive && (rule.snoozeUntil.None? || rule.snoozeUntil.value <= now)
  }

  /** A maintenance window of the project, or of every project, holds the instant. */
  predicate Mutes(w: MaintenanceWindow, project: ProjectId, now: int)
  {
    (w.project == None || w.project == Some(project)) && w.startsAt <= now && now < w.endsAt
  }

  predicate Muted(windows: seq<MaintenanceWindow>, project: ProjectId, now: int)
  {
    exists w :: w in windows && Mutes(w, project, now)
  }

  predicate UnresolvedOf(e: AlertEvent, rule: RuleId, key: string)
  {
    e.rule == rule && e.key == key && e.state in {Firing, Acknowledged}
  }

  /** Nobody owns an unresolved event of the rule and key, and each was never marked or was
      marked at least a window ago. */
  ghost predicate Due(rows: seq<AlertEvent>, rule: RuleId, key: string, window: int, now: int)
  {
    forall i :: 0 <= i < |rows| && UnresolvedOf(rows[i], rule, key) ==>
      && rows[i].state == Firing
      && (rows[i].lastNotifiedAt.None? || rows[i].lastNotifiedAt.value + window <= now)
  }

  /** All firings of a threshold rule are one alert; otherwise there is one per level. */
  function AlertKey(rule: AlertRule, rep: AlertPayload): string
  {
    if rule.condition.ThresholdCondition? then "threshold" else ToUpper(TrimSpace(rep.level))
  }

  /** No error on the way out. A disabled connection sends nothing and reports none. */
  predicate GoesOut(w: World)
  {
    w.connection.Some? && (w.connection.value.enabled ==> w.connection.value.provider in w.callers && w.accepted)
  }

  /** The row a firing is recorded on: the unresolved one, or a new one at the end. */
  ghost predicate RecordedOn(rows: seq<AlertEvent>, rule: RuleId, key: string, id: EventId)
  {
    if id < |rows| then UnresolvedOf(rows[id], rule, key)
    else id == |rows| && forall i :: 0 <= i < |rows| ==> !UnresolvedOf(rows[i], rule, key)
  }

  /** The raise reaches the connection. */
  ghost predicate Pages(s: AlertState, step: Step)
    requires step.RaiseStep?
  {
    && step.world.queryOk && step.world.recordOk
    && Awake(step.rule, step.now)
    && !Muted(step.windows, step.rule.project, step.now)
    && Due(s.rows, step.rule.id, AlertKey(step.rule, step.rep), EffectiveWindow(DedupWindow(step.rule)), step.now)
    && GoesOut(step.world)
  }

  // ---------------------------------------------------------------------------
  // One raise

  lemma {:induction false} OpenRow(rows: seq<AlertEvent>, rule: RuleId, key: string) returns (id: EventId)
    requires OneOpen(rows)
    ensures RecordedOn(rows, rule, key, id)
    ensures id < |rows| ==> FindOpen(rows, rule, key) == Some(id)
    ensures id == |rows| ==> FindOpen(rows, rule, key) == None
  {
    match FindOpen(rows, rule, key)
    case Some(i) => id := i;
    case None =>
      id := |rows|;
      forall i | 0 <= i < |rows|
        ensures !UnresolvedOf(rows[i], rule, key)
      {
        assert !IsOpen(rows[i], rule, key);
      }
  }

  lemma {:induction false} MutedIsCovered(windows: seq<MaintenanceWindow>, project: ProjectId, now: int)
    ensures Muted(windows, project, now) <==> exists i :: 0 <= i < |windows| && Covers(windows[i], project, now)
  {
    if w :| w in windows && Mutes(w, project, now) {
      var i :| 0 <= i < |windows| && windows[i] == w;
      assert Covers(windows[i], project, now);
    }
    if i :| 0 <= i < |windows| && Covers(windows[i], project, now) {
      assert Mutes(windows[i], project, now);
    }
  }

  lemma {:induction false} DueIsDecided(rows: seq<AlertEvent>, rule: RuleId, key: string, window: int, now: int)
    requires OneOpen(rows) && 0 < window < TWO_63
    ensures Due(rows, rule, key, window, now) <==>
            match PriorEvent(rows, rule, key)
            case None => true
            case Some(e) =>
              e.state == Firing && (e.lastNotifiedAt.Some? ==> Sub(now, e.lastNotifiedAt.value) >= window)
  {
    var id := OpenRow(rows, rule, key);
    if id < |rows| {
      assert UnresolvedOf(rows[id], rule, key);
      forall i | 0 <= i < |rows| && UnresolvedOf(rows[i], rule, key)
        ensures i == id
      {
        OpenIsUnique(rows, rule, key, i);
      }
    }
  }

  lemma {:induction false} VerdictIff(s: AlertState, step: Step)
    requires Inv(s) && step.RaiseStep?
    ensures VerdictOn(s, step.rule, step.rep, step.windows, step.now) == Deliver <==>
            && Awake(step.rule, step.now)
            && !Muted(step.windows, step.rule.project, step.now)
            && Due(s.rows, step.rule.id, AlertKey(step.rule, step.rep), EffectiveWindow(DedupWindow(step.rule)),
                   step.now)
  {
    WindowIsPositive(step.rule);
    MutedIsCovered(step.windows, step.rule.project, step.now);
    var key := AlertKey(step.rule, step.rep);
    DueIsDecided(s.rows, step.rule.id, key, EffectiveWindow(DedupWindow(step.rule)), step.now);
    OpenPriorIsUnresolved(s.rows, step.rule.id, key);
  }

  lemma {:induction false} OpenPriorIsUnresolved(rows: seq<AlertEvent>, rule: RuleId, key: string)
    ensures PriorEvent(rows, rule, key).Some? ==> PriorEvent(rows, rule, key).value.state != Resolved
  {
  }

  /** Who is paged. Whatever the state, the rule and the windows, a raise appends one
      delivery to the log if and only if the stores work, the rule is active and not snoozed,
      no window for its project or for all projects holds the instant, the alert is due, and
      the connection takes it or is disabled; it was sent exactly when the connection is
      enabled. Otherwise the log stays as it is. */
  lemma {:induction false} PagesIff(s: AlertState, step: Step) returns (id: EventId)
    requires Inv(s) && step.RaiseStep?
    ensures RecordedOn(s.rows, step.rule.id, AlertKey(step.rule, step.rep), id)
    ensures Do(s, step).log ==
            if Pages(s, step) then
              s.log + [Delivery(step.rule.id, AlertKey(step.rule, step.rep), id, step.now, step.world.markOk,
                                step.world.connection.value.enabled)]
            else s.log
  {
    id := OpenRow(s.rows, step.rule.id, AlertKey(step.rule, step.rep));
    VerdictIff(s, step);
    RaiseIsRecorded(s, step);
  }

  /** What the notification and the row say. */
  function SummaryText(message: string, matched: nat): string
  {
    if matched <= 1 then message else message + " (+" + Decimal(matched - 1) + " more matching logs)"
  }

  /** What a raise writes. A refused one writes nothing. Any other writes one row and leaves
      every other as it was: the unresolved event of the rule and key keeps its state, its
      owner and the instant it was first seen, and takes the new text, level and instant and
      the matches on top of its own; without one there is a new firing row. The row is marked
      at the instant of the raise exactly when the raise went out and the mark succeeded. */
  lemma {:induction false} RaiseWritesOneRow(s: AlertState, step: Step) returns (id: EventId)
    requires Inv(s) && step.RaiseStep?
    ensures RecordedOn(s.rows, step.rule.id, AlertKey(step.rule, step.rep), id)
    ensures !(step.world.queryOk && step.world.recordOk) ==> Do(s, step) == s
    ensures step.world.queryOk && step.world.recordOk ==>
              && |Do(s, step).rows| == (if id < |s.rows| then |s.rows| else |s.rows| + 1)
              && (forall i :: 0 <= i < |s.rows| && i != id ==> Do(s, step).rows[i] == s.rows[i])
              && RowSays(Do(s, step).rows[id], step)
              && RowFollows(Do(s, step).rows[id], if id < |s.rows| then Some(s.rows[id]) else None, step,
                            Pages(s, step) && step.world.markOk)
  {
    id := PagesIff(s, step);
    VerdictIff(s, step);
    RaiseIsRecorded(s, step);
    OpenRowIsFound(s.rows, step.rule.id, AlertKey(step.rule, step.rep), id);
  }

  lemma {:induction false} OpenRowIsFound(rows: seq<AlertEvent>, rule: RuleId, key: string, id: EventId)
    requires OneOpen(rows) && RecordedOn(rows, rule, key, id)
    ensures FindOpen(rows, rule, key) == if id < |rows| then Some(id) else None
  {
    var found := OpenRow(rows, rule, key);
    if id < |rows| {
      OpenIsUnique(rows, rule, key, id);
    }
  }

  /** The latest firing shows. */
  ghost predicate RowSays(row: AlertEvent, step: Step)
    requires step.RaiseStep?
  {
    && row.rule == step.rule.id && row.key == AlertKey(step.rule, step.rep)
    && row.summary == SummaryText(step.rep.message, step.matched) && row.level == step.rep.level
    && row.lastSeenAt == step.now
  }

  /** The rest continues the row that was there, or begins. */
  ghost predicate RowFollows(row: AlertEvent, before: Option<AlertEvent>, step: Step, marked: bool)
    requires step.RaiseStep?
  {
    match before
    case Some(was) =>
      && row.state == was.state && row.firstSeenAt == was.firstSeenAt && row.resolvedAt == was.resolvedAt
      && row.acknowledgedAt == was.acknowledgedAt && row.acknowledgedBy == was.acknowledgedBy
      && row.matchCount == was.matchCount + step.matched
      && row.lastNotifiedAt == (if marked then Some(step.now) else was.lastNotifiedAt)
    case None =>
      && row.state == Firing && row.firstSeenAt == step.now && row.resolvedAt.None?
      && row.acknowledgedAt.None? && row.acknowledgedBy.None?
      && row.matchCount == step.matched
      && row.lastNotifiedAt == (if marked then Some(step.now) else None)
  }

  // ---------------------------------------------------------------------------
  // Runs

  lemma {:induction false} NothingElseDelivers(s: AlertState, step: Step)
    requires !step.RaiseStep?
    ensures s.log <= Do(s, step).log && |Do(s, step).log| <= |s.log| + 1
    ensures |Do(s, step).log| == |s.log| + 1 ==> Do(s, step).log[|s.log|].Resolution?
  {
  }

  /** Every page has its raise. Over every run of raises, acknowledgements and resolutions, a
      delivery in the log was appended by a raise of its rule and key at its instant, and
      that raise found the rule active and not snoozed, no window over its project, and the
      alert due. Nothing in the log comes from a muted raise. */
  lemma {:induction false} EveryPageWasDue(steps: seq<Step>, k: nat) returns (j: nat)
    requires k < |DoAll(START, steps).log| && DoAll(START, steps).log[k].Delivery?
    ensures j < |steps| && steps[j].RaiseStep? && k == |DoAll(START, steps[..j]).log|
    ensures var item := DoAll(START, steps).log[k];
            && item.rule == steps[j].rule.id && item.key == AlertKey(steps[j].rule, steps[j].rep)
            && item.at == steps[j].now
    ensures Pages(DoAll(START, steps[..j]), steps[j])
    ensures Awake(steps[j].rule, steps[j].now) && !Muted(steps[j].windows, steps[j].rule.project, steps[j].now)
    decreases |steps|
  {
    var n := |steps| - 1;
    var before, step := DoAll(START, steps[..n]), steps[n];
    assert steps == steps[..n] + [step];
    DoAllAppend(START, steps[..n], step);
    RunKeepsInv(START, steps[..n]);
    if step.RaiseStep? {
      var id := PagesIff(before, step);
    } else {
      NothingElseDelivers(before, step);
    }
    if k < |before.log| {
      j := EveryPageWasDue(steps[..n], k);
      assert steps[..n][..j] == steps[..j];
    } else {
      j := n;
    }
  }

  /** Every due raise has its page: the log of a run holds, at the place where the log stood
      before the raise, the delivery of each raise that was due. */
  lemma {:induction false} EveryDuePageIsLogged(steps: seq<Step>, j: nat)
    requires j < |steps| && steps[j].RaiseStep? && Pages(DoAll(START, steps[..j]), steps[j])
    ensures var log, k := DoAll(START, steps).log, |DoAll(START, steps[..j]).log|;
            && k < |log| && log[k].Delivery?
            && log[k].rule == steps[j].rule.id && log[k].key == AlertKey(steps[j].rule, steps[j].rep)
            && log[k].at == steps[j].now && log[k].sent == steps[j].world.connection.value.enabled
    decreases |steps|
  {
    var n := |steps| - 1;
    assert steps == steps[..n] + [steps[n]];
    DoAllAppend(START, steps[..n], steps[n]);
    RunKeepsInv(START, steps[..n]);
    if j == n {
      var id := PagesIff(DoAll(START, steps[..n]), steps[n]);
    } else {
      assert steps[..n][..j] == steps[..j];
      EveryDuePageIsLogged(steps[..n], j);
      RaiseOrNot(DoAll(START, steps[..n]), steps[n]);
    }
  }

  // ---------------------------------------------------------------------------
  // The life of an event

  /** An event is resolved exactly when the log holds its resolution, at the instant the row
      shows; nothing about the event follows it. */
  ghost predicate ClosedOnce(s: AlertState, id: EventId)
    requires id < |s.rows|
  {
    && (s.rows[id].state == Resolved ==> exists k :: 0 <= k < |s.log| && IsClosing(s.log[k], id))
    && (s.rows[id].state != Resolved ==> s.rows[id].resolvedAt == None)
    && (forall k :: 0 <= k < |s.log| && IsClosing(s.log[k], id) ==>
          && s.rows[id].state == Resolved && s.rows[id].resolvedAt == Some(s.log[k].at)
          && NothingAbout(s.log[k + 1..], id))
  }

  ghost predicate IsClosing(item: LogItem, id: EventId) { item.Resolution? && item.event == id }

  ghost predicate NothingAbout(items: seq<LogItem>, id: EventId)
  {
    forall k :: 0 <= k < |items| ==> items[k].event != id
  }

  ghost predicate AllClosedOnce(s: AlertState)
  {
    && (forall id :: 0 <= id < |s.rows| ==> ClosedOnce(s, id))
    && (forall k :: 0 <= k < |s.log| ==> s.log[k].event < |s.rows|)
  }

  /** An item about an event that was open before it. */
  lemma {:induction false} ItemKeepsClosed(s: AlertState, s': AlertState, item: LogItem, id: EventId)
    requires AllClosedOnce(s) && s'.log == s.log + [item] && id < |s'.rows|
    requires id < |s.rows| ==> s'.rows[id].resolvedAt == s.rows[id].resolvedAt || item.event == id
    requires id < |s.rows| ==> (s'.rows[id].state == Resolved <==> s.rows[id].state == Resolved) || item.event == id
    requires item.event == id && id < |s.rows| ==> s.rows[id].state != Resolved
    requires item.event == id ==> (item.Resolution? <==> s'.rows[id].state == Resolved)
    requires item.event == id ==> s'.rows[id].resolvedAt == if item.Resolution? then Some(item.at) else None
    requires id >= |s.rows| ==> s'.rows[id].state != Resolved && s'.rows[id].resolvedAt == None
    ensures ClosedOnce(s', id)
  {
    var n := |s.log|;
    assert s'.log[n] == item && s'.log[n + 1..] == [];
    forall k | 0 <= k < n && IsClosing(s'.log[k], id)
      ensures s'.rows[id].state == Resolved && s'.rows[id].resolvedAt == Some(s'.log[k].at)
      ensures NothingAbout(s'.log[k + 1..], id)
    {
      assert ClosedOnce(s, id) && IsClosing(s.log[k], id);
      assert s'.log[k + 1..] == s.log[k + 1..] + [item];
    }
    if s'.rows[id].state == Resolved {
      if item.event == id {
        assert IsClosing(s'.log[n], id);
      } else {
        assert ClosedOnce(s, id);
        var k :| 0 <= k < n && IsClosing(s.log[k], id);
        assert IsClosing(s'.log[k], id);
      }
    }
  }

  lemma {:induction false} RowsKeepClosed(s: AlertState, s': AlertState)
    requires AllClosedOnce(s) && s'.log == s.log && |s.rows| <= |s'.rows|
    requires forall i :: 0 <= i < |s.rows| ==>
               && (s'.rows[i].state == Resolved <==> s.rows[i].state == Resolved)
               && s'.rows[i].resolvedAt == s.rows[i].resolvedAt
    requires forall i :: |s.rows| <= i < |s'.rows| ==> s'.rows[i].state != Resolved && s'.rows[i].resolvedAt == None
    ensures AllClosedOnce(s')
  {
    forall id | 0 <= id < |s'.rows|
      ensures ClosedOnce(s', id)
    {
      if id < |s.rows| {
        assert ClosedOnce(s, id);
      }
    }
  }

  /** One open or new row is written, and stays open. */
  ghost predicate OpenRowWritten(rows: seq<AlertEvent>, after: seq<AlertEvent>, id: EventId)
  {
    && |after| == (if id < |rows| then |rows| else |rows| + 1) && id < |after|
    && (forall i :: 0 <= i < |rows| && i != id ==> after[i] == rows[i])
    && (id < |rows| ==> rows[id].state != Resolved && after[id].resolvedAt == rows[id].resolvedAt)
    && (id == |rows| ==> after[id].resolvedAt == None)
    && after[id].state != Resolved
  }

  lemma {:induction false} WrittenKeepsClosed(s: AlertState, s': AlertState, id: EventId)
    requires AllClosedOnce(s) && OpenRowWritten(s.rows, s'.rows, id)
    requires s'.log == s.log || (|s'.log| == |s.log| + 1 && s'.log == s.log + [s'.log[|s.log|]])
    requires s'.log != s.log ==> s'.log[|s.log|].Delivery? && s'.log[|s.log|].event == id
    ensures AllClosedOnce(s')
  {
    if s'.log == s.log {
      RowsKeepClosed(s, s');
    } else {
      forall i | 0 <= i < |s'.rows|
        ensures ClosedOnce(s', i)
      {
        assert i < |s.rows| ==> ClosedOnce(s, i);
        ItemKeepsClosed(s, s', s'.log[|s.log|], i);
      }
    }
  }

  lemma {:induction false} RaiseWritesOpenRow(s: AlertState, step: Step) returns (id: EventId)
    requires Inv(s) && step.RaiseStep? && Do(s, step) != s
    ensures RecordedOn(s.rows, step.rule.id, AlertKey(step.rule, step.rep), id)
    ensures OpenRowWritten(s.rows, Do(s, step).rows, id)
  {
    id := RaiseWritesOneRow(s, step);
  }

  lemma {:induction false} RaiseKeepsClosed(s: AlertState, step: Step)
    requires Inv(s) && AllClosedOnce(s) && step.RaiseStep?
    ensures AllClosedOnce(Do(s, step))
  {
    if Do(s, step) != s {
      var id := RaiseWritesOpenRow(s, step);
      var pages := PagesIff(s, step);
      OpenRowIsFound(s.rows, step.rule.id, AlertKey(step.rule, step.rep), id);
      OpenRowIsFound(s.rows, step.rule.id, AlertKey(step.rule, step.rep), pages);
      assert id == pages;
      WrittenKeepsClosed(s, Do(s, step), id);
    }
  }

  lemma {:induction false} ResolveKeepsClosed(s: AlertState, id: EventId, now: int)
    requires AllClosedOnce(s)
    ensures AllClosedOnce(ResolveEvent(s, id, now))
  {
    var s' := ResolveEvent(s, id, now);
    if id < |s.rows| && s.rows[id].state != Resolved {
      forall i | 0 <= i < |s'.rows|
        ensures ClosedOnce(s', i)
      {
        ItemKeepsClosed(s, s', s'.log[|s.log|], i);
      }
    }
  }

  lemma {:induction false} StepKeepsClosed(s: AlertState, step: Step)
    requires Inv(s) && AllClosedOnce(s)
    ensures AllClosedOnce(Do(s, step))
  {
    match step
    case RaiseStep(_, _, _, _, _, _) => RaiseKeepsClosed(s, step);
    case AcknowledgeStep(_, _, _) => RowsKeepClosed(s, Do(s, step));
    case ResolveStep(id, now) => ResolveKeepsClosed(s, id, now);
  }

  lemma {:induction false} RunKeepsClosed(s: AlertState, steps: seq<Step>)
    requires Inv(s) && AllClosedOnce(s)
    ensures AllClosedOnce(DoAll(s, steps))
    decreases |steps|
  {
    if steps != [] {
      DoKeepsInv(s, steps[0]);
      StepKeepsClosed(s, steps[0]);
      RunKeepsClosed(Do(s, steps[0]), steps[1..]);
    }
  }

  /** Closed once and for all. In every run an event is resolved exactly when the log holds
      its resolution; there is one, at the instant the row shows, and no page and no second
      resolution of the event comes after it. */
  lemma {:induction false} ClosedOnceAndForAll(steps: seq<Step>, id: EventId)
    requires id < |DoAll(START, steps).rows|
    ensures var s := DoAll(START, steps);
            && (s.rows[id].state == Resolved <==> exists k :: 0 <= k < |s.log| && IsClosing(s.log[k], id))
            && (forall k :: 0 <= k < |s.log| && IsClosing(s.log[k], id) ==> s.rows[id].resolvedAt == Some(s.log[k].at))
            && (forall k, m :: 0 <= k < m < |s.log| && IsClosing(s.log[k], id) ==> s.log[m].event != id)
  {
    RunKeepsInv(START, []);
    RunKeepsClosed(START, steps);
    var s := DoAll(START, steps);
    assert ClosedOnce(s, id);
    forall k, m | 0 <= k < m < |s.log| && IsClosing(s.log[k], id)
      ensures s.log[m].event != id
    {
      assert s.log[m] == s.log[k + 1..][m - k - 1];
    }
  }

  /** Step j acknowledges an event that is firing then. */
  ghost predicate TakesOver(steps: seq<Step>, j: nat, id: EventId, user: UserId, at: int)
  {
    && j < |steps| && steps[j] == AcknowledgeStep(id, user, at)
    && id < |DoAll(START, steps[..j]).rows| && DoAll(START, steps[..j]).rows[id].state == Firing
  }

  ghost predicate TakenOver(steps: seq<Step>, id: EventId, user: UserId, at: int)
  {
    exists j: nat :: TakesOver(steps, j, id, user, at)
  }

  ghost predicate OwnedBy(e: AlertEvent, user: UserId, at: int)
  {
    e.acknowledgedBy == Some(user) && e.acknowledgedAt == Some(at)
  }

  ghost predicate OwnersAgree(e: AlertEvent)
  {
    && (e.acknowledgedBy.Some? <==> e.acknowledgedAt.Some?)
    && (e.state == Firing ==> e.acknowledgedBy.None?) && (e.state == Acknowledged ==> e.acknowledgedBy.Some?)
  }

  lemma {:induction false} OwnersStep(s: AlertState, step: Step, id: EventId)
    requires Inv(s) && id < |s.rows| && OwnersAgree(s.rows[id])
    ensures var s' := Do(s, step);
            && id < |s'.rows| && OwnersAgree(s'.rows[id])
            && forall user, at :: OwnedBy(s'.rows[id], user, at) <==>
                 || OwnedBy(s.rows[id], user, at)
                 || (step == AcknowledgeStep(id, user, at) && s.rows[id].state == Firing)
  {
    if step.RaiseStep? {
      var written := RaiseWritesOneRow(s, step);
    }
  }

  lemma {:induction false} NewRowsHaveNoOwner(s: AlertState, step: Step, id: EventId)
    requires Inv(s) && |s.rows| <= id < |Do(s, step).rows|
    ensures OwnersAgree(Do(s, step).rows[id]) && Do(s, step).rows[id].acknowledgedBy.None?
  {
    if step.RaiseStep? {
      var written := RaiseWritesOneRow(s, step);
    }
  }

  lemma {:induction false} TakenOverStep(steps: seq<Step>, step: Step, id: EventId, user: UserId, at: int)
    ensures TakenOver(steps + [step], id, user, at) <==>
            || TakenOver(steps, id, user, at)
            || (step == AcknowledgeStep(id, user, at) && id < |DoAll(START, steps).rows|
                && DoAll(START, steps).rows[id].state == Firing)
  {
    var all, n := steps + [step], |steps|;
    assert all[..n] == steps && all[n] == step;
    assert forall j :: 0 <= j < n ==> all[j] == steps[j] && all[..j] == steps[..j];
    if j: nat :| TakesOver(all, j, id, user, at) {
      assert j < n ==> TakesOver(steps, j, id, user, at);
    }
    if j: nat :| TakesOver(steps, j, id, user, at) {
      assert TakesOver(all, j, id, user, at);
    }
    assert TakesOver(all, n, id, user, at) <==>
           step == AcknowledgeStep(id, user, at) && id < |DoAll(START, steps).rows|
           && DoAll(START, steps).rows[id].state == Firing;
  }

  /** Who owns an event. In every run the row of an event names a person and an instant
      exactly when that person acknowledged it at that instant while it was firing; an event
      is firing only as long as nobody has. */
  lemma {:induction false} OwnerIff(steps: seq<Step>, id: EventId, user: UserId, at: int)
    requires id < |DoAll(START, steps).rows|
    ensures OwnersAgree(DoAll(START, steps).rows[id])
    ensures OwnedBy(DoAll(START, steps).rows[id], user, at) <==> TakenOver(steps, id, user, at)
    decreases |steps|
  {
    var n := |steps| - 1;
    var before, step := steps[..n], steps[n];
    assert steps == before + [step];
    DoAllAppend(START, before, step);
    RunKeepsInv(START, before);
    TakenOverStep(before, step, id, user, at);
    var s := DoAll(START, before);
    if id < |s.rows| {
      OwnerIff(before, id, user, at);
      OwnersStep(s, step, id);
    } else {
      NewRowsHaveNoOwner(s, step, id);
      NobodyBeforeTheRow(before, id, user, at);
    }
  }

  lemma {:induction false} NobodyBeforeTheRow(steps: seq<Step>, id: EventId, user: UserId, at: int)
    requires |DoAll(START, steps).rows| <= id
    ensures !TakenOver(steps, id, user, at)
    decreases |steps|
  {
    if steps != [] {
      var n := |steps| - 1;
      var before, step := steps[..n], steps[n];
      assert steps == before + [step];
      DoAllAppend(START, before, step);
      RunKeepsInv(START, before);
      RowsOnlyGrow(DoAll(START, before), step);
      NobodyBeforeTheRow(before, id, user, at);
      TakenOverStep(before, step, id, user, at);
    }
  }

  lemma {:induction false} RowsOnlyGrow(s: AlertState, step: Step)
    requires Inv(s)
    ensures |s.rows| <= |Do(s, step).rows|
  {
    if step.RaiseStep? {
      var written := RaiseWritesOneRow(s, step);
    }
  }

  // ---------------------------------------------------------------------------
  // Levels and queries

  /** From the least to the most severe. */
  const LEVELS: seq<string> := ["DEBUG", "INFO", "WARN", "ERROR"]

  ghost predicate AtLeast(level: string, floor: string)
  {
    exists i, j :: 0 <= j <= i < |LEVELS| && LEVELS[i] == level && LEVELS[j] == floor
  }

  lemma {:induction false} RankIsPosition(level: string)
    ensures if level in LEVELS then 0 <= SeverityRank(level) < 4 && LEVELS[SeverityRank(level)] == level
            else SeverityRank(level) < 0
    ensures forall i :: 0 <= i < |LEVELS| ==> SeverityRank(LEVELS[i]) == i
  {
    assert LEVELS[0] == "DEBUG" && LEVELS[1] == "INFO" && LEVELS[2] == "WARN" && LEVELS[3] == "ERROR";
    var d, i, w, e := "DEBUG", "INFO", "WARN", "ERROR";
    assert d[0] == 'D' && i[0] == 'I' && w[0] == 'W' && e[0] == 'E';
  }

  lemma {:induction false} AtLeastIsRank(level: string, floor: string)
    ensures AtLeast(level, floor) <==>
            SeverityRank(floor) >= 0 && SeverityRank(level) >= SeverityRank(floor)
  {
    RankIsPosition(level);
    RankIsPosition(floor);
    if SeverityRank(floor) >= 0 && SeverityRank(level) >= SeverityRank(floor) {
      var i, j := SeverityRank(level), SeverityRank(floor);
      assert LEVELS[i] == level && LEVELS[j] == floor;
    }
  }

  /** A level rule matches its level and everything more severe, and nothing unknown. */
  lemma {:induction false} LevelRuleMatchesIff(level: string, p: AlertPayload)
    ensures MatchesLog(LevelCondition(level), p) <==> AtLeast(p.level, level)
  {
    AtLeastIsRank(p.level, level);
  }

  /** Every populated field of a query must match, and a query without one matches nothing:
      a query matches exactly when each of its fields alone, where populated, matches. */
  lemma {:induction false} FieldsNarrow(q: Query, p: AlertPayload)
    ensures QueryMatches(q, p) <==>
            && (q.levels != [] || TrimSpace(q.contains) != "" || TrimSpace(q.source) != "")
            && (q.levels != [] ==> QueryMatches(Query(q.levels, "", ""), p))
            && (TrimSpace(q.contains) != "" ==> QueryMatches(Query([], q.contains, ""), p))
            && (TrimSpace(q.source) != "" ==> QueryMatches(Query([], "", q.source), p))
  {
    assert TrimSpace("") == "";
  }

  /** A text query matches exactly the logs whose lowered message holds the lowered text,
      without the white space around it, at some position. */
  lemma {:induction false} TextQueryMatchesIff(text: string, p: AlertPayload)
    requires TrimSpace(text) != ""
    ensures var message, part := ToLower(p.message), ToLower(TrimSpace(text));
            QueryMatches(Query([], text, ""), p) <==> exists i :: StandsAt(message, part, i)
  {
    assert TrimSpace("") == "";
    ContainsIff(ToLower(p.message), ToLower(TrimSpace(text)));
  }

  // ---------------------------------------------------------------------------
  // One threshold rule in a pass

  predicate CountReached(c: Condition, n: int)
    requires c.ThresholdCondition?
  {
    n > c.count || (n == c.count && !c.comparatorGt)
  }

  /** A most severe known level among those named; ERROR when none of them is known. */
  ghost predicate MostSevereNamed(levels: seq<string>, level: string)
  {
    if exists l :: l in levels && l in LEVELS then
      level in levels && forall l :: l in levels && l in LEVELS ==> AtLeast(level, l)
    else level == "ERROR"
  }

  lemma {:induction false} MostSevereRanks(levels: seq<string>)
    ensures MostSevere(levels) == "" || MostSevere(levels) in levels
    ensures forall l :: l in levels ==> SeverityRank(l) <= SeverityRank(MostSevere(levels))
    ensures MostSevere(levels) == "" || SeverityRank(MostSevere(levels)) >= 0
    decreases |levels|
  {
    if levels != [] {
      var n := |levels| - 1;
      MostSevereRanks(levels[..n]);
      assert levels == levels[..n] + [levels[n]];
    }
  }

  lemma {:induction false} LevelOfPass(q: Query)
    ensures MostSevereNamed(q.levels, ThresholdLevel(q))
  {
    MostSevereRanks(q.levels);
    if l :| l in q.levels && l in LEVELS {
      RankIsPosition(l);
      assert SeverityRank(MostSevere(q.levels)) >= 0;
    } else {
      RankIsPosition(MostSevere(q.levels));
    }
    forall l | l in q.levels && l in LEVELS
      ensures AtLeast(ThresholdLevel(q), l)
    {
      RankIsPosition(l);
      AtLeastIsRank(ThresholdLevel(q), l);
    }
  }

  ghost predicate HasUnresolved(rows: seq<AlertEvent>, rule: RuleId, key: string)
  {
    exists i :: 0 <= i < |rows| && UnresolvedOf(rows[i], rule, key)
  }

  /** A pass over one threshold rule. At its count the rule is raised, at the most severe of
      the levels its query names; below it nothing is delivered. When the stores work, the
      rule has an open alert after the pass if and only if its count was reached. */
  lemma {:induction false} OpenAfterPassIff(s: AlertState, rule: AlertRule, windows: seq<MaintenanceWindow>, now: int,
                                            p: Pass)
    returns (level: string)
    requires Inv(s) && rule.condition.ThresholdCondition? && rule.condition.query.Some? && p.matched.Some?
    ensures MostSevereNamed(rule.condition.query.value.levels, level)
    ensures var s' := EvaluateOne(s, rule, windows, now, p).0;
            && (CountReached(rule.condition, p.matched.value) ==>
                  s' == Do(s, RaiseStep(rule, AlertPayload(level, p.message, "alerting"), p.matched.value, windows,
                                        now, p.world)))
            && (!CountReached(rule.condition, p.matched.value) ==>
                  forall k :: |s.log| <= k < |s'.log| ==> s'.log[k].Resolution?)
            && (p.world.queryOk && p.world.recordOk && p.resolveOk ==>
                  (HasUnresolved(s'.rows, rule.id, "threshold") <==>
                     CountReached(rule.condition, p.matched.value)))
  {
    level := ThresholdLevel(rule.condition.query.value);
    LevelOfPass(rule.condition.query.value);
    var s' := EvaluateOne(s, rule, windows, now, p).0;
    if CountReached(rule.condition, p.matched.value) {
      var step := RaiseStep(rule, AlertPayload(level, p.message, "alerting"), p.matched.value, windows, now, p.world);
      var id := RaiseWritesOneRow(s, step);
      assert p.world.queryOk && p.world.recordOk ==> UnresolvedOf(s'.rows[id], rule.id, "threshold");
    } else if p.world.queryOk && p.resolveOk {
      BelowThresholdCloses(s, rule, windows, now, p);
      forall i | 0 <= i < |s'.rows|
        ensures !UnresolvedOf(s'.rows[i], rule.id, "threshold")
      {
        assert !IsOpen(s'.rows[i], rule.id, "threshold");
      }
    }
  }

  // ---------------------------------------------------------------------------
  // Batches and passes

  ghost predicate SomeMatch(rule: AlertRule, payloads: seq<AlertPayload>)
  {
    exists i :: 0 <= i < |payloads| && MatchesLog(rule.condition, payloads[i])
  }

  ghost function MatchesOf(rule: AlertRule, payloads: seq<AlertPayload>): set<nat>
  {
    set i: nat | i < |payloads| && MatchesLog(rule.condition, payloads[i])
  }

  /** The step raises the rule with the count of its matches and the first most severe one. */
  ghost predicate RaisesFor(step: Step, rule: AlertRule, payloads: seq<AlertPayload>, windows: seq<MaintenanceWindow>,
                            now: int, world: World)
  {
    && step.RaiseStep? && step.rule == rule && step.windows == windows && step.now == now && step.world == world
    && step.matched == |MatchesOf(rule, payloads)|
    && exists at :: 0 <= at < |payloads| && step.rep == payloads[at]
                    && FirstMostSevere(Matcher(rule.condition), payloads, at)
  }

  /** The places of the rules that are no threshold rules and match a payload. */
  ghost predicate MatchingRules(rules: seq<AlertRule>, payloads: seq<AlertPayload>, at: seq<nat>)
  {
    && (forall i, j :: 0 <= i < j < |at| ==> at[i] < at[j])
    && forall i: nat ::
         i in at <==> i < |rules| && !rules[i].condition.ThresholdCondition? && SomeMatch(rules[i], payloads)
  }

  lemma {:induction false} OneMoreRule(rules: seq<AlertRule>, payloads: seq<AlertPayload>, before: seq<nat>,
                                       at: seq<nat>)
    requires rules != [] && MatchingRules(rules[..|rules| - 1], payloads, before)
    requires var rule := rules[|rules| - 1];
             at == if !rule.condition.ThresholdCondition? && SomeMatch(rule, payloads) then before + [|rules| - 1]
                   else before
    ensures MatchingRules(rules, payloads, at)
  {
    var n := |rules| - 1;
    forall k | 0 <= k < |before|
      ensures before[k] < n
    {
      assert before[k] in before;
    }
    forall i: nat
      ensures i in at <==> i < |rules| && !rules[i].condition.ThresholdCondition? && SomeMatch(rules[i], payloads)
    {
      assert i in at <==> i in before || (i == n && |at| > |before|);
      assert i < n ==> rules[..n][i] == rules[i];
    }
  }

  lemma {:induction false} BatchOfOne(s: AlertState, rule: AlertRule, payloads: seq<AlertPayload>,
                                      windows: seq<MaintenanceWindow>, now: int, w: World)
    returns (step: Option<Step>)
    ensures step.Some? <==> !rule.condition.ThresholdCondition? && SomeMatch(rule, payloads)
    ensures FireOne(s, rule, payloads, windows, now, w) == if step.Some? then Do(s, step.value) else s
    ensures step.Some? ==> RaisesFor(step.value, rule, payloads, windows, now, w)
  {
    step := None;
    RepresentativeIsFirstMostSevere(Matcher(rule.condition), payloads);
    assert Matching(Matcher(rule.condition), payloads) == MatchesOf(rule, payloads);
    var (matched, rep) := MatchPayloads(Matcher(rule.condition), payloads);
    if i :| 0 <= i < |payloads| && MatchesLog(rule.condition, payloads[i]) {
      assert i in MatchesOf(rule, payloads);
    }
    if matched > 0 {
      var at :| 0 <= at < |payloads| && rep == Some(payloads[at])
                && FirstMostSevere(Matcher(rule.condition), payloads, at);
      assert MatchesLog(rule.condition, payloads[at]);
      if !rule.condition.ThresholdCondition? {
        step := Some(RaiseStep(rule, rep.value, matched, windows, now, w));
      }
    }
  }

  /** What a batch of logs does: it raises, in their order, exactly the rules that are no
      threshold rules and match a log of the batch, each once, with the number of its matches
      and the first most severe of them, under the windows and at the instant of the batch. */
  lemma {:induction false} BatchRaisesExactly(s: AlertState, rules: seq<AlertRule>, payloads: seq<AlertPayload>,
                                              windows: seq<MaintenanceWindow>, now: int, worlds: seq<World>)
    returns (at: seq<nat>, steps: seq<Step>)
    requires |worlds| == |rules|
    ensures DoAll(s, steps) == FireAll(s, rules, payloads, windows, now, worlds)
    ensures MatchingRules(rules, payloads, at) && |steps| == |at|
    ensures forall k :: 0 <= k < |at| ==>
              at[k] < |rules| && RaisesFor(steps[k], rules[at[k]], payloads, windows, now, worlds[at[k]])
    decreases |rules|
  {
    at, steps := [], [];
    if rules != [] {
      var n := |rules| - 1;
      var at1, steps1 := BatchRaisesExactly(s, rules[..n], payloads, windows, now, worlds[..n]);
      var last := BatchOfOne(DoAll(s, steps1), rules[n], payloads, windows, now, worlds[n]);
      at, steps := at1, steps1;
      if last.Some? {
        DoAllAppend(s, steps1, last.value);
        at, steps := at1 + [n], steps1 + [last.value];
      }
      OneMoreRule(rules, payloads, at1, at);
    }
  }

  /** A raise that reports no error: recorded, and, where it was to go out, sent and marked. */
  ghost predicate NoError(s: AlertState, step: Step)
    requires step.RaiseStep?
  {
    && step.world.queryOk && step.world.recordOk
    && (Awake(step.rule, step.now) && !Muted(step.windows, step.rule.project, step.now)
        && Due(s.rows, step.rule.id, AlertKey(step.rule, step.rep), EffectiveWindow(DedupWindow(step.rule)), step.now)
        ==> GoesOut(step.world) && step.world.markOk)
  }

  /** What one rule of a pass does. */
  ghost predicate PassedOver(s: AlertState, s': AlertState, rule: AlertRule, windows: seq<MaintenanceWindow>,
                             now: int, p: Pass, level: string, fired: bool)
  {
    if !rule.condition.ThresholdCondition? || rule.condition.query.None? || p.matched.None? then s' == s && !fired
    else if CountReached(rule.condition, p.matched.value) then
      var payload := AlertPayload(level, p.message, "alerting");
      var step := RaiseStep(rule, payload, p.matched.value, windows, now, p.world);
      && MostSevereNamed(rule.condition.query.value.levels, level)
      && s' == Do(s, step) && (fired <==> NoError(s, step))
    else
      && !fired && (forall k :: |s.log| <= k < |s'.log| ==> s'.log[k].Resolution?)
      && (p.world.queryOk && p.resolveOk ==> !HasUnresolved(s'.rows, rule.id, "threshold"))
  }

  lemma {:induction false} RaisedIff(s: AlertState, step: Step)
    requires Inv(s) && step.RaiseStep?
    ensures Raise(s, step.rule, step.rep, step.matched, step.windows, step.now, step.world).1.Raised?
            <==> NoError(s, step)
  {
    VerdictIff(s, step);
  }

  lemma {:induction false} OneRuleOfAPass(s: AlertState, rule: AlertRule, windows: seq<MaintenanceWindow>, now: int,
                                          p: Pass)
    returns (level: string)
    requires Inv(s)
    ensures Inv(EvaluateOne(s, rule, windows, now, p).0)
    ensures PassedOver(s, EvaluateOne(s, rule, windows, now, p).0, rule, windows, now, p, level,
                       EvaluateOne(s, rule, windows, now, p).1)
  {
    level := "";
    var step := EvaluateOneIsAStep(s, rule, windows, now, p);
    if step.Some? {
      DoKeepsInv(s, step.value);
    }
    if rule.condition.ThresholdCondition? && rule.condition.query.Some? && p.matched.Some? {
      level := OpenAfterPassIff(s, rule, windows, now, p);
      if CountReached(rule.condition, p.matched.value) {
        level := ThresholdLevel(rule.condition.query.value);
        LevelOfPass(rule.condition.query.value);
        var payload := AlertPayload(level, p.message, "alerting");
        RaisedIff(s, RaiseStep(rule, payload, p.matched.value, windows, now, p.world));
      } else if p.world.queryOk && p.resolveOk {
        BelowThresholdCloses(s, rule, windows, now, p);
        NoneUnresolved(EvaluateOne(s, rule, windows, now, p).0.rows, rule.id);
      }
    }
  }

  lemma {:induction false} NoneUnresolved(rows: seq<AlertEvent>, rule: RuleId)
    requires FindOpen(rows, rule, "threshold") == None
    ensures !HasUnresolved(rows, rule, "threshold")
  {
    forall i | 0 <= i < |rows|
      ensures !UnresolvedOf(rows[i], rule, "threshold")
    {
      assert !IsOpen(rows[i], rule, "threshold");
    }
  }

  /** The states between the rules of a pass, the levels raised, and which rules fired. */
  ghost predicate PassTrace(states: seq<AlertState>, rules: seq<AlertRule>, windowsOf: OrgId -> seq<MaintenanceWindow>,
                            now: int, passes: seq<Pass>, levels: seq<string>, fired: seq<bool>)
  {
    && |states| == |rules| + 1 && |passes| == |levels| == |fired| == |rules|
    && forall k :: 0 <= k < |rules| ==>
         PassedOver(states[k], states[k + 1], rules[k], windowsOf(rules[k].org), now, passes[k], levels[k], fired[k])
  }

  ghost function Trues(flags: seq<bool>): nat
  {
    if flags == [] then 0 else Trues(flags[..|flags| - 1]) + (if flags[|flags| - 1] then 1 else 0)
  }

  /** What a pass over the threshold rules does: it goes over the rules in their order, each
      under the windows of its own organization, and counts those it raised without an
      error. */
  lemma {:induction false} PassGoesOverEach(s: AlertState, rules: seq<AlertRule>,
                                            windowsOf: OrgId -> seq<MaintenanceWindow>, now: int, passes: seq<Pass>)
    returns (states: seq<AlertState>, levels: seq<string>, fired: seq<bool>)
    requires Inv(s) && |passes| == |rules|
    ensures PassTrace(states, rules, windowsOf, now, passes, levels, fired)
    ensures states[0] == s && EvaluateAll(s, rules, windowsOf, now, passes) == (states[|rules|], Trues(fired))
    ensures Inv(states[|rules|])
    decreases |rules|
  {
    states, levels, fired := [s], [], [];
    if rules != [] {
      var n := |rules| - 1;
      var states1, levels1, fired1 := PassGoesOverEach(s, rules[..n], windowsOf, now, passes[..n]);
      var rule, p, t := rules[n], passes[n], states1[n];
      var level := OneRuleOfAPass(t, rule, windowsOf(rule.org), now, p);
      var (t', one) := EvaluateOne(t, rule, windowsOf(rule.org), now, p);
      states, levels, fired := states1 + [t'], levels1 + [level], fired1 + [one];
      TraceGrows(states1, rules, windowsOf, now, passes, levels1, fired1, t', level, one);
      assert fired[..n] == fired1;
    }
  }

  lemma {:induction false} TraceGrows(states: seq<AlertState>, rules: seq<AlertRule>,
                                      windowsOf: OrgId -> seq<MaintenanceWindow>, now: int, passes: seq<Pass>,
                                      levels: seq<string>, fired: seq<bool>, last: AlertState, level: string, one: bool)
    requires rules != [] && |passes| == |rules|
    requires PassTrace(states, rules[..|rules| - 1], windowsOf, now, passes[..|rules| - 1], levels, fired)
    requires var n := |rules| - 1;
             PassedOver(states[n], last, rules[n], windowsOf(rules[n].org), now, passes[n], level, one)
    ensures PassTrace(states + [last], rules, windowsOf, now, passes, levels + [level], fired + [one])
  {
    var n := |rules| - 1;
    forall k | 0 <= k < |rules|
      ensures PassedOver((states + [last])[k], (states + [last])[k + 1], rules[k], windowsOf(rules[k].org), now,
                         passes[k], (levels + [level])[k], (fired + [one])[k])
    {
      if k < n {
        assert rules[..n][k] == rules[k] && passes[..n][k] == passes[k];
      }
    }
  }
}
