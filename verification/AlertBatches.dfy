/** What one batch of logs and one threshold pass do, and that both are runs in the
    sense of AlertRuns, so that everything proved there holds across them. */
module AlertBatches {
  import opened Basics
  import opened Text
  import opened Suppression
  import opened AlertBus
  import opened AlertRuns

  // ---------------------------------------------------------------------------
  // Batches are runs

  lemma {:induction false} DoAllAppend(s: AlertState, a: seq<Step>, step: Step)
    ensures DoAll(s, a + [step]) == Do(DoAll(s, a), step)
    decreases |a|
  {
    if a == [] {
      assert [step][1..] == [];
      assert DoAll(s, [step]) == DoAll(Do(s, step), []);
    } else {
      assert (a + [step])[1..] == a[1..] + [step];
      DoAllAppend(Do(s, a[0]), a[1..], step);
    }
  }

  ghost predicate AllAt(steps: seq<Step>, now: int)
  {
    forall k :: 0 <= k < |steps| ==> steps[k].now == now
  }

  /** Every batch is a run of raises at one instant. */
  lemma {:induction false} FireAllIsARun(s: AlertState, rules: seq<AlertRule>, payloads: seq<AlertPayload>,
                                         windows: seq<MaintenanceWindow>, now: int, worlds: seq<World>)
    returns (steps: seq<Step>)
    requires |worlds| == |rules|
    ensures DoAll(s, steps) == FireAll(s, rules, payloads, windows, now, worlds) && AllAt(steps, now)
    decreases |rules|
  {
    if rules == [] {
      steps := [];
    } else {
      var n := |rules| - 1;
      steps := FireAllIsARun(s, rules[..n], payloads, windows, now, worlds[..n]);
      var rule, before := rules[n], DoAll(s, steps);
      var (matched, rep) := MatchPayloads(Matcher(rule.condition), payloads);
      if !NeedsEvaluator(rule.condition) && matched > 0 {
        var step := RaiseStep(rule, rep.value, matched, windows, now, worlds[n]);
        DoAllAppend(s, steps, step);
        steps := steps + [step];
      }
    }
  }

  /** Every threshold pass is a run of raises and resolutions at one instant. */
  lemma {:induction false} EvaluateAllIsARun(s: AlertState, rules: seq<AlertRule>,
                                             windowsOf: OrgId -> seq<MaintenanceWindow>,
                                             now: int, passes: seq<Pass>)
    returns (steps: seq<Step>)
    requires |passes| == |rules|
    ensures DoAll(s, steps) == EvaluateAll(s, rules, windowsOf, now, passes).0 && AllAt(steps, now)
    decreases |rules|
  {
    if rules == [] {
      steps := [];
    } else {
      var n := |rules| - 1;
      steps := EvaluateAllIsARun(s, rules[..n], windowsOf, now, passes[..n]);
      var last := EvaluateOneIsAStep(DoAll(s, steps), rules[n], windowsOf(rules[n].org), now, passes[n]);
      if last.Some? {
        DoAllAppend(s, steps, last.value);
        steps := steps + [last.value];
      }
    }
  }

  lemma {:induction false} EvaluateOneIsAStep(s: AlertState, rule: AlertRule, windows: seq<MaintenanceWindow>,
                                              now: int, p: Pass)
    returns (step: Option<Step>)
    ensures EvaluateOne(s, rule, windows, now, p).0 == if step.Some? then Do(s, step.value) else s
    ensures step.Some? ==> step.value.now == now
  {
    step := None;
    if rule.condition.ThresholdCondition? && rule.condition.query.Some? && p.matched.Some? {
      if Satisfied(rule.condition, p.matched.value) {
        var payload := AlertPayload(ThresholdLevel(rule.condition.query.value), p.message, "alerting");
        step := Some(RaiseStep(rule, payload, p.matched.value, windows, now, p.world));
      } else {
        var open := FindOpen(s.rows, rule.id, DedupKey(rule.condition, ""));
        if p.world.queryOk && open.Some? && p.resolveOk {
          step := Some(ResolveStep(open.value, now));
        }
      }
    }
  }

  // ---------------------------------------------------------------------------
  // The representative of a batch

  ghost function Matching(matches: AlertPayload -> bool, payloads: seq<AlertPayload>): set<nat>
  {
    set i: nat | i < |payloads| && matches(payloads[i])
  }

  lemma {:induction false} MatchCount(matches: AlertPayload -> bool, payloads: seq<AlertPayload>)
    ensures MatchPayloads(matches, payloads).0 == |Matching(matches, payloads)|
    decreases |payloads|
  {
    if payloads != [] {
      var n := |payloads| - 1;
      MatchCount(matches, payloads[..n]);
      var before := Matching(matches, payloads[..n]);
      assert Matching(matches, payloads) == if matches(payloads[n]) then before + {n} else before;
    } else {
      assert Matching(matches, payloads) == {};
    }
  }

  /** The first among the most severe matching payloads. */
  ghost predicate FirstMostSevere(matches: AlertPayload -> bool, payloads: seq<AlertPayload>, at: nat)
    requires at < |payloads|
  {
    && matches(payloads[at])
    && (forall i :: 0 <= i < |payloads| && matches(payloads[i]) ==>
          SeverityRank(payloads[i].level) <= SeverityRank(payloads[at].level))
    && (forall i :: 0 <= i < at && matches(payloads[i]) ==>
          SeverityRank(payloads[i].level) < SeverityRank(payloads[at].level))
  }

  lemma {:induction false} FindRepresentative(matches: AlertPayload -> bool, payloads: seq<AlertPayload>)
    returns (at: nat)
    ensures MatchPayloads(matches, payloads).0 == 0 ==> forall i :: 0 <= i < |payloads| ==> !matches(payloads[i])
    ensures MatchPayloads(matches, payloads).0 > 0 ==>
              && at < |payloads| && MatchPayloads(matches, payloads).1 == Some(payloads[at])
              && FirstMostSevere(matches, payloads, at)
    decreases |payloads|
  {
    at := 0;
    if payloads != [] {
      var n := |payloads| - 1;
      at := FindRepresentative(matches, payloads[..n]);
      var (matched, rep) := MatchPayloads(matches, payloads[..n]);
      var p := payloads[n];
      if matches(p) && (rep.None? || SeverityRank(p.level) > SeverityRank(rep.value.level)) {
        at := n;
      }
    }
  }

  /** The count is the number of matching payloads; the representative is the first
      among the most severe of them. */
  lemma {:induction false} RepresentativeIsFirstMostSevere(matches: AlertPayload -> bool, payloads: seq<AlertPayload>)
    ensures MatchPayloads(matches, payloads).0 == |Matching(matches, payloads)|
    ensures var rep := MatchPayloads(matches, payloads).1;
            if Matching(matches, payloads) == {} then rep.None?
            else exists at ::
              0 <= at < |payloads| && rep == Some(payloads[at]) && FirstMostSevere(matches, payloads, at)
  {
    MatchCount(matches, payloads);
    var at := FindRepresentative(matches, payloads);
    if MatchPayloads(matches, payloads).0 > 0 {
      assert at in Matching(matches, payloads);
    }
  }

  // ---------------------------------------------------------------------------
  // Every match is recorded

  /** Matches recorded for a rule, over all its events. */
  ghost function Recordings(rows: seq<AlertEvent>, rule: RuleId): int
    decreases |rows|
  {
    if rows == [] then 0
    else Recordings(rows[..|rows| - 1], rule)
         + (if rows[|rows| - 1].rule == rule then rows[|rows| - 1].matchCount else 0)
  }

  lemma {:induction false} RecordingsUpdate(rows: seq<AlertEvent>, i: nat, e: AlertEvent, rule: RuleId)
    requires i < |rows| && e.rule == rows[i].rule
    ensures Recordings(rows[i := e], rule) == Recordings(rows, rule)
            + (if e.rule == rule then e.matchCount - rows[i].matchCount else 0)
    decreases |rows|
  {
    var n := |rows| - 1;
    if i < n {
      assert rows[i := e][..n] == rows[..n][i := e];
      RecordingsUpdate(rows[..n], i, e, rule);
    } else {
      assert rows[i := e][..n] == rows[..n];
    }
  }

  lemma {:induction false} RecordFiringAdds(rows: seq<AlertEvent>, f: FiringRecord, rule: RuleId)
    ensures Recordings(RecordFiring(rows, f).0, rule) == Recordings(rows, rule)
            + (if f.rule == rule then f.matchCount else 0)
  {
    var (rows', id) := RecordFiring(rows, f);
    if id < |rows| {
      RecordingsUpdate(rows, id, rows'[id], rule);
    } else {
      assert rows'[..|rows|] == rows;
    }
  }

  lemma {:induction false} RecordedAdds(s: AlertState, f: FiringRecord, o: Outcome, rule: RuleId)
    ensures Recordings(Recorded(s, f, o).rows, rule)
         == Recordings(s.rows, rule) + (if !o.Refused? && f.rule == rule then f.matchCount else 0)
  {
    var (rows, id) := RecordFiring(s.rows, f);
    RecordFiringAdds(s.rows, f, rule);
    if o.Passed? && o.marked {
      RecordingsUpdate(rows, id, MarkNotified(rows, id, f.at)[id], rule);
    }
  }

  /** Matching logs of one rule in a batch whose recording the store accepted. */
  ghost function MatchesRecorded(rules: seq<AlertRule>, payloads: seq<AlertPayload>, worlds: seq<World>,
                                 rule: RuleId): nat
    requires |worlds| == |rules|
    decreases |rules|
  {
    if rules == [] then 0
    else
      var n := |rules| - 1;
      var r, w := rules[n], worlds[n];
      MatchesRecorded(rules[..n], payloads, worlds[..n], rule)
      + (if r.id == rule && !NeedsEvaluator(r.condition) && w.queryOk && w.recordOk
         then MatchPayloads(Matcher(r.condition), payloads).0 else 0)
  }

  /** A batch adds to a rule's events exactly the logs that matched it, whatever became
      of the notification: suppressed, failed or sent, each match is counted once. */
  lemma {:induction false} EveryMatchIsRecordedOnce(s: AlertState, rules: seq<AlertRule>, payloads: seq<AlertPayload>,
                                                   windows: seq<MaintenanceWindow>, now: int, worlds: seq<World>,
                                                   rule: RuleId)
    requires |worlds| == |rules|
    ensures Recordings(FireAll(s, rules, payloads, windows, now, worlds).rows, rule)
         == Recordings(s.rows, rule) + MatchesRecorded(rules, payloads, worlds, rule)
    decreases |rules|
  {
    if rules != [] {
      var n := |rules| - 1;
      EveryMatchIsRecordedOnce(s, rules[..n], payloads, windows, now, worlds[..n], rule);
      var before := FireAll(s, rules[..n], payloads, windows, now, worlds[..n]);
      OneRuleRecords(before, rules[n], payloads, windows, now, worlds[n], rule);
    }
  }

  lemma {:induction false} OneRuleRecords(s: AlertState, r: AlertRule, payloads: seq<AlertPayload>,
                                         windows: seq<MaintenanceWindow>, now: int, w: World, rule: RuleId)
    ensures Recordings(FireOne(s, r, payloads, windows, now, w).rows, rule)
         == Recordings(s.rows, rule)
            + (if r.id == rule && !NeedsEvaluator(r.condition) && w.queryOk && w.recordOk
               then MatchPayloads(Matcher(r.condition), payloads).0 else 0)
  {
    var (matched, rep) := MatchPayloads(Matcher(r.condition), payloads);
    if !NeedsEvaluator(r.condition) && matched > 0 {
      var step := RaiseStep(r, rep.value, matched, windows, now, w);
      RaiseIsRecorded(s, step);
      RecordedAdds(s, FiringIn(step), OutcomeOf(s, step), rule);
    }
  }

  // ---------------------------------------------------------------------------
  // Threshold passes

  ghost predicate NoOpenEvent(rows: seq<AlertEvent>, rule: RuleId)
  {
    forall i :: 0 <= i < |rows| && rows[i].rule == rule ==> rows[i].state == Resolved
  }

  /** A pass that finds a rule back under its threshold closes its threshold alert. It
      leaves the rule with nothing open exactly when the rule had no open event under
      another key: one from before it became a threshold rule stays open. */
  lemma {:induction false} BelowThresholdCloses(s: AlertState, rule: AlertRule, windows: seq<MaintenanceWindow>,
                                                now: int, p: Pass)
    requires Inv(s) && rule.condition.ThresholdCondition? && rule.condition.query.Some?
    requires p.matched.Some? && !Satisfied(rule.condition, p.matched.value) && p.world.queryOk && p.resolveOk
    ensures var s' := EvaluateOne(s, rule, windows, now, p).0;
            && FindOpen(s'.rows, rule.id, "threshold") == None
            && (NoOpenEvent(s'.rows, rule.id) <==>
                  forall i :: 0 <= i < |s.rows| && s.rows[i].rule == rule.id && s.rows[i].key != "threshold" ==>
                    s.rows[i].state == Resolved)
  {
    var open := FindOpen(s.rows, rule.id, "threshold");
    var s' := EvaluateOne(s, rule, windows, now, p).0;
    assert s' == if open.Some? then ResolveEvent(s, open.value, now) else s;
    assert forall i :: 0 <= i < |s'.rows| ==> !IsOpen(s'.rows[i], rule.id, "threshold");
    if NoOpenEvent(s'.rows, rule.id) {
      forall i | 0 <= i < |s.rows| && s.rows[i].rule == rule.id && s.rows[i].key != "threshold"
        ensures s.rows[i].state == Resolved
      {
        assert s'.rows[i] == s.rows[i];
      }
    } else {
      var i :| 0 <= i < |s'.rows| && s'.rows[i].rule == rule.id && s'.rows[i].state != Resolved;
      assert s'.rows[i].key != "threshold" && s'.rows[i] == s.rows[i];
    }
  }

  /** A rule that fired by level and was then edited into a threshold rule: the pass below
      its count leaves the old alert open. */
  lemma {:induction false} EditedRuleStaysOpen(rule: AlertRule, level: string, edited: AlertRule, rep: AlertPayload,
                                               w: World, p: Pass)
    requires rule.condition == LevelCondition(level) && edited.id == rule.id
    requires edited.condition.ThresholdCondition? && edited.condition.query.Some?
    requires w.queryOk && w.recordOk
    requires p.matched.Some? && !Satisfied(edited.condition, p.matched.value) && p.world.queryOk && p.resolveOk
    ensures var s := Do(START, RaiseStep(rule, rep, 1, [], 0, w));
            var t := EvaluateOne(s, edited, [], SECOND, p).0;
            && FindOpen(t.rows, edited.id, "threshold") == None
            && !NoOpenEvent(t.rows, edited.id)
  {
    var step := RaiseStep(rule, rep, 1, [], 0, w);
    var s := Do(START, step);
    RaiseIsRecorded(START, step);
    LevelKeyIsNoThreshold(level, rep.level);
    FirstIsOpen(FiringIn(step), OutcomeOf(START, step));
    RecordedKeepsInv(START, FiringIn(step), OutcomeOf(START, step));
    BelowThresholdCloses(s, edited, [], SECOND, p);
    assert s.rows[0].rule == edited.id && s.rows[0].key != "threshold" && s.rows[0].state != Resolved;
  }

  /** The key of a level is in upper case. */
  lemma {:induction false} LevelKeyIsNoThreshold(condition: string, level: string)
    ensures DedupKey(LevelCondition(condition), level) != "threshold"
  {
    UpperHasNoLower(TrimSpace(level));
    var key := ToUpper(TrimSpace(level));
    assert key != [] ==> !('a' <= key[0] <= 'z');
  }

  lemma {:induction false} FirstIsOpen(f: FiringRecord, o: Outcome)
    requires !o.Refused?
    ensures var s := Recorded(START, f, o); |s.rows| == 1 && IsOpen(s.rows[0], f.rule, f.key)
  {
    assert FindOpen([], f.rule, f.key) == None;
  }

  // ---------------------------------------------------------------------------
  // Marks and deliveries

  /** The last mark of an event, if there is one, stands for a delivery that a provider
      accepted. */
  ghost predicate LastMarkWasSent(log: seq<LogItem>, id: EventId)
    decreases |log|
  {
    log == []
    || (var item := log[|log| - 1];
        if item.Delivery? && item.event == id && item.marked then item.sent else LastMarkWasSent(log[..|log| - 1], id))
  }

  ghost predicate Truthful(s: AlertState)
  {
    forall i :: 0 <= i < |s.rows| ==> LastMarkWasSent(s.log, i)
  }

  /** A raise keeps every mark backed by a delivery exactly when it does not pass to a
      disabled connection: there nothing is sent, no error is returned, and the event is
      marked as notified all the same. */
  lemma {:induction false} MarksAreTruthfulIff(s: AlertState, step: Step)
    requires Inv(s) && Truthful(s) && step.RaiseStep?
    ensures Truthful(Do(s, step)) <==>
            !(&& step.world.queryOk && step.world.recordOk && step.world.markOk
              && VerdictOn(s, step.rule, step.rep, step.windows, step.now) == Deliver
              && step.world.connection.Some? && !step.world.connection.value.enabled)
  {
    var f, o := FiringIn(step), OutcomeOf(s, step);
    RaiseIsRecorded(s, step);
    RecordKeepsRows(s, f);
    var id := RecordFiring(s.rows, f).1;
    if id == |s.rows| {
      NoneMarked(s.log, id);
    }
    RecordedTruthful(s, f, o);
  }

  lemma {:induction false} NoneMarked(log: seq<LogItem>, id: EventId)
    requires forall k :: 0 <= k < |log| ==> log[k].event != id
    ensures LastMarkWasSent(log, id)
    decreases |log|
  {
    if log != [] {
      NoneMarked(log[..|log| - 1], id);
    }
  }

  lemma {:induction false} LastMarkOfOneMore(log: seq<LogItem>, item: LogItem, id: EventId)
    ensures LastMarkWasSent(log + [item], id)
       <==> if item.Delivery? && item.event == id && item.marked then item.sent else LastMarkWasSent(log, id)
  {
    assert (log + [item])[..|log|] == log;
  }

  /** A delivery on a truthful log: its own event becomes untruthful when it is marked and
      was not sent, and no other event's mark changes. */
  lemma {:induction false} DeliveryTruthful(s: AlertState, s': AlertState, item: LogItem)
    requires item.Delivery? && item.event < |s'.rows| && s'.log == s.log + [item]
    requires forall i :: 0 <= i < |s'.rows| ==> LastMarkWasSent(s.log, i)
    ensures Truthful(s') <==> !item.marked || item.sent
  {
    forall i | 0 <= i < |s'.rows|
      ensures LastMarkWasSent(s'.log, i) <==> !(item.event == i && item.marked) || item.sent
    {
      LastMarkOfOneMore(s.log, item, i);
    }
    assert LastMarkWasSent(s'.log, item.event) <==> !item.marked || item.sent;
  }

  lemma {:induction false} RowsStayTruthful(s: AlertState, n: nat)
    requires Inv(s) && Truthful(s)
    ensures forall i :: 0 <= i < n ==> LastMarkWasSent(s.log, i)
  {
    forall i | 0 <= i < n
      ensures LastMarkWasSent(s.log, i)
    {
      if i >= |s.rows| {
        NoneMarked(s.log, i);
      }
    }
  }

  lemma {:induction false} RecordedTruthful(s: AlertState, f: FiringRecord, o: Outcome)
    requires Inv(s) && Truthful(s)
    ensures Truthful(Recorded(s, f, o)) <==> o != Passed(true, false)
  {
    RecordKeepsRows(s, f);
    var (rows, id) := RecordFiring(s.rows, f);
    var s' := Recorded(s, f, o);
    RowsStayTruthful(s, |s'.rows|);
    if o.Passed? {
      DeliveryTruthful(s, s', Delivery(f.rule, f.key, id, f.at, o.marked, o.sent));
    }
  }

  /** Where marks are truthful, a firing suppressed as a duplicate is one whose event a
      provider was told about less than a window ago. */
  lemma {:induction false} DedupFollowsADelivery(s: AlertState, step: Step) returns (k: nat)
    requires Inv(s) && Truthful(s) && step.RaiseStep?
    requires VerdictOn(s, step.rule, step.rep, step.windows, step.now) == Dedup
    ensures k < |s.log| && s.log[k].Delivery? && s.log[k].sent && s.log[k].marked
    ensures FindOpen(s.rows, step.rule.id, FiringIn(step).key) == Some(s.log[k].event)
    ensures step.now - s.log[k].at < EffectiveWindow(DedupWindow(step.rule))
  {
    var open := FindOpen(s.rows, step.rule.id, FiringIn(step).key).value;
    k := MarkInLog(s.log, open);
    WindowIsPositive(step.rule);
    DedupIsRecent(InputFor(step.rule, Some(s.rows[open]), step.windows, step.now));
  }

  lemma {:induction false} DedupIsRecent(input: SuppressInput)
    requires ShouldNotify(input) == Dedup
    ensures input.existing.Some? && input.existing.value.lastNotifiedAt.Some?
    ensures EffectiveWindow(input.dedupWindow) < TWO_63 ==>
              input.now - input.existing.value.lastNotifiedAt.value < EffectiveWindow(input.dedupWindow)
  {
  }

  lemma {:induction false} MarkInLog(log: seq<LogItem>, id: EventId) returns (k: nat)
    requires LastMarkOf(log, id).Some? && LastMarkWasSent(log, id)
    ensures k < |log| && log[k].Delivery? && log[k].event == id && log[k].marked && log[k].sent
    ensures log[k].at == LastMarkOf(log, id).value
    decreases |log|
  {
    k := |log| - 1;
    if !(log[k].Delivery? && log[k].event == id && log[k].marked) {
      k := MarkInLog(log[..k], id);
    }
  }

  /** The same firing twice, one second apart: the connection is disabled at first and
      enabled at the second. Nobody is ever told, and the second is called a duplicate. */
  lemma {:induction false} DisabledConnectionSilences(rule: AlertRule, rep: AlertPayload, provider: string)
    requires rule.isActive && rule.snoozeUntil.None? && rule.dedupWindowSeconds == 300
    ensures var off := World(true, true, Some(Integration(provider, false)), {provider}, true, true);
            var s := Do(START, RaiseStep(rule, rep, 1, [], 0, off));
            && VerdictOn(s, rule, rep, [], SECOND) == Dedup
            && forall k :: 0 <= k < |s.log| ==> s.log[k].Delivery? && !s.log[k].sent
  {
    var off := World(true, true, Some(Integration(provider, false)), {provider}, true, true);
    var step := RaiseStep(rule, rep, 1, [], 0, off);
    FirstIsMarked(rule, rep, off, step);
    MarkedSilences(Do(START, step), rule, FiringIn(step).key);
  }

  lemma {:induction false} FirstIsMarked(rule: AlertRule, rep: AlertPayload, off: World, step: Step)
    requires rule.isActive && rule.snoozeUntil.None? && step == RaiseStep(rule, rep, 1, [], 0, off)
    requires SendAlert(off) == Skipped && off.queryOk && off.recordOk && off.markOk
    ensures var s := Do(START, step);
            && |s.rows| == 1 && IsOpen(s.rows[0], rule.id, FiringIn(step).key)
            && s.rows[0].state == Firing && s.rows[0].lastNotifiedAt == Some(0)
            && |s.log| == 1 && s.log[0].Delivery? && !s.log[0].sent
  {
    RaiseIsRecorded(START, step);
    assert PriorEvent([], rule.id, FiringIn(step).key) == None;
    assert OutcomeOf(START, step) == Passed(true, false);
    RecordOnEmpty(FiringIn(step));
  }

  lemma {:induction false} RecordOnEmpty(f: FiringRecord)
    ensures var s := Recorded(START, f, Passed(true, false));
            && |s.rows| == 1 && IsOpen(s.rows[0], f.rule, f.key) && s.rows[0].state == Firing
            && s.rows[0].lastNotifiedAt == Some(f.at) && |s.log| == 1 && s.log[0].Delivery? && !s.log[0].sent
  {
    assert FindOpen([], f.rule, f.key) == None;
  }

  lemma {:induction false} MarkedSilences(s: AlertState, rule: AlertRule, key: string)
    requires rule.isActive && rule.snoozeUntil.None? && rule.dedupWindowSeconds == 300
    requires |s.rows| == 1 && IsOpen(s.rows[0], rule.id, key) && s.rows[0].state == Firing
             && s.rows[0].lastNotifiedAt == Some(0)
    ensures ShouldNotify(InputFor(rule, PriorEvent(s.rows, rule.id, key), [], SECOND)) == Dedup
  {
    assert FindOpen(s.rows, rule.id, key) == Some(0);
  }
}
