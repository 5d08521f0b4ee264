/** What holds over every run of the alerting service: firings, acknowledgements and
    resolutions in any order, with rules and maintenance windows changing in between.

    Each raise reads its rule afresh, so snoozing, switching off or editing a rule, and
    opening a maintenance window, are all covered by letting every raise step carry
    whatever rule and windows it found. */
module AlertRuns {
  import opened Basics
  import opened Suppression
  import opened AlertBus

  datatype Step =
    | RaiseStep(rule: AlertRule, rep: AlertPayload, matched: nat, windows: seq<MaintenanceWindow>, now: int,
                world: World)
    | AcknowledgeStep(id: EventId, user: UserId, now: int)
    | ResolveStep(id: EventId, now: int)

  function Do(s: AlertState, step: Step): AlertState
  {
    match step
    case RaiseStep(rule, rep, matched, windows, now, w) => Raise(s, rule, rep, matched, windows, now, w).0
    case AcknowledgeStep(id, user, now) => AlertState(AcknowledgeEvent(s.rows, id, user, now), s.log)
    case ResolveStep(id, now) => ResolveEvent(s, id, now)
  }

  ghost function DoAll(s: AlertState, steps: seq<Step>): AlertState
    decreases |steps|
  {
    if steps == [] then s else DoAll(Do(s, steps[0]), steps[1..])
  }

  const START: AlertState := AlertState([], [])

  // ---------------------------------------------------------------------------
  // A raise, stripped to what it does to the table and the log

  /** Refused by the store, recorded without a delivery, or recorded and passed on. */
  datatype Outcome = Refused | Quiet | Passed(marked: bool, sent: bool)

  function Recorded(s: AlertState, f: FiringRecord, o: Outcome): AlertState
  {
    var (rows, id) := RecordFiring(s.rows, f);
    match o
    case Refused => s
    case Quiet => AlertState(rows, s.log)
    case Passed(marked, sent) =>
      AlertState(if marked then MarkNotified(rows, id, f.at) else rows,
                 s.log + [Delivery(f.rule, f.key, id, f.at, marked, sent)])
  }

  /** No open event, or a firing one that was never notified or not for a whole window. */
  ghost predicate MayPass(s: AlertState, f: FiringRecord, window: int)
  {
    var open := FindOpen(s.rows, f.rule, f.key);
    open.Some? ==>
      && s.rows[open.value].state == Firing
      && (s.rows[open.value].lastNotifiedAt.Some? ==> f.at - s.rows[open.value].lastNotifiedAt.value >= window)
  }

  function OutcomeOf(s: AlertState, step: Step): Outcome
    requires step.RaiseStep?
  {
    var w := step.world;
    if !w.queryOk || !w.recordOk then Refused
    else if VerdictOn(s, step.rule, step.rep, step.windows, step.now) != Deliver then Quiet
    else if SendAlert(w) == SendFailed then Quiet
    else Passed(w.markOk, SendAlert(w) == Sent)
  }

  function FiringIn(step: Step): FiringRecord
    requires step.RaiseStep?
  {
    FiringOf(step.rule, step.rep, step.matched, step.now)
  }

  lemma {:induction false} RaiseIsRecorded(s: AlertState, step: Step)
    requires step.RaiseStep?
    ensures Do(s, step) == Recorded(s, FiringIn(step), OutcomeOf(s, step))
    ensures OutcomeOf(s, step).Passed? ==> MayPass(s, FiringIn(step), EffectiveWindow(DedupWindow(step.rule)))
  {
    if OutcomeOf(s, step).Passed? {
      var open := FindOpen(s.rows, step.rule.id, FiringIn(step).key);
      if open.Some? && s.rows[open.value].lastNotifiedAt.Some? {
        DeliveredAfterWindow(InputFor(step.rule, Some(s.rows[open.value]), step.windows, step.now));
      }
    }
  }

  // ---------------------------------------------------------------------------
  // Invariants of every run

  /** The partial unique index: at most one open event per rule and key. */
  ghost predicate OneOpen(rows: seq<AlertEvent>)
  {
    forall i, j :: 0 <= i < j < |rows| && rows[i].state != Resolved && rows[j].state != Resolved ==>
      rows[i].rule != rows[j].rule || rows[i].key != rows[j].key
  }

  /** When an event was last marked as notified, according to the log. */
  ghost function LastMarkOf(log: seq<LogItem>, id: EventId): Option<int>
    decreases |log|
  {
    if log == [] then None
    else
      var item := log[|log| - 1];
      if item.Delivery? && item.event == id && item.marked then Some(item.at) else LastMarkOf(log[..|log| - 1], id)
  }

  ghost predicate LogMatchesRows(s: AlertState)
  {
    && (forall i :: 0 <= i < |s.rows| ==> s.rows[i].lastNotifiedAt == LastMarkOf(s.log, i))
    && (forall k :: 0 <= k < |s.log| ==>
          && s.log[k].event < |s.rows|
          && s.rows[s.log[k].event].rule == s.log[k].rule && s.rows[s.log[k].event].key == s.log[k].key)
  }

  ghost predicate Inv(s: AlertState) { OneOpen(s.rows) && LogMatchesRows(s) }

  lemma {:induction false} NoMarkBeyond(log: seq<LogItem>, id: EventId)
    requires forall k :: 0 <= k < |log| ==> log[k].event != id
    ensures LastMarkOf(log, id) == None
    decreases |log|
  {
    if log != [] {
      NoMarkBeyond(log[..|log| - 1], id);
    }
  }

  ghost predicate SameAlert(a: AlertEvent, b: AlertEvent)
  {
    a.lastNotifiedAt == b.lastNotifiedAt && a.rule == b.rule && a.key == b.key
  }

  lemma {:induction false} RecordKeepsRows(s: AlertState, f: FiringRecord)
    requires Inv(s)
    ensures var (rows, id) := RecordFiring(s.rows, f);
            && OneOpen(rows) && id < |rows| && |s.rows| <= |rows| && IsOpen(rows[id], f.rule, f.key)
            && (forall i :: 0 <= i < |s.rows| ==> SameAlert(rows[i], s.rows[i]))
            && (id == |s.rows| ==> rows[id].lastNotifiedAt == None && |rows| == |s.rows| + 1)
            && (id < |s.rows| ==> |rows| == |s.rows|)
  {
  }

  lemma {:induction false} RecordedKeepsInv(s: AlertState, f: FiringRecord, o: Outcome)
    requires Inv(s)
    ensures Inv(Recorded(s, f, o))
  {
    RecordKeepsRows(s, f);
    var (rows, id) := RecordFiring(s.rows, f);
    if id == |s.rows| {
      NoMarkBeyond(s.log, id);
    }
    var s' := Recorded(s, f, o);
    if o.Passed? {
      assert s'.log[..|s.log|] == s.log;
    }
  }

  lemma {:induction false} DoKeepsInv(s: AlertState, step: Step)
    requires Inv(s)
    ensures Inv(Do(s, step))
  {
    match step
    case RaiseStep(_, _, _, _, _, _) =>
      RaiseIsRecorded(s, step);
      RecordedKeepsInv(s, FiringIn(step), OutcomeOf(s, step));
    case AcknowledgeStep(_, _, _) =>
    case ResolveStep(id, now) =>
      var s' := Do(s, step);
      if s' != s {
        assert s'.log[..|s.log|] == s.log;
      }
  }

  lemma {:induction false} RunKeepsInv(s: AlertState, steps: seq<Step>)
    requires Inv(s)
    ensures Inv(DoAll(s, steps))
    decreases |steps|
  {
    if steps != [] {
      DoKeepsInv(s, steps[0]);
      RunKeepsInv(Do(s, steps[0]), steps[1..]);
    }
  }

  /** In every run there is at most one open event per rule and dedup key, and what an
      event says about its last notification is the last delivery that was marked:
      a failed send or a failed mark leaves it as it was. */
  lemma {:induction false} EveryRunKeepsHistory(steps: seq<Step>)
    ensures var s := DoAll(START, steps);
            && OneOpen(s.rows)
            && forall i :: 0 <= i < |s.rows| ==> s.rows[i].lastNotifiedAt == LastMarkOf(s.log, i)
  {
    RunKeepsInv(START, steps);
  }

  // ---------------------------------------------------------------------------
  // How the log of one rule and key is paced

  ghost predicate About(item: LogItem, rule: RuleId, key: string) { item.rule == rule && item.key == key }

  /** Marked deliveries of a rule and key, with no resolution between them, are at least
      a window apart; `last` is the mark in force when the items begin. */
  ghost predicate Paced(items: seq<LogItem>, rule: RuleId, key: string, last: Option<int>, window: int)
    decreases |items|
  {
    items != [] ==>
      var item := items[0];
      if !About(item, rule, key) then Paced(items[1..], rule, key, last, window)
      else if item.Resolution? then Paced(items[1..], rule, key, None, window)
      else
        && (last.Some? ==> item.at - last.value >= window)
        && Paced(items[1..], rule, key, if item.marked then Some(item.at) else last, window)
  }

  /** The mark of the open event of a rule and key. */
  ghost function OpenMark(s: AlertState, rule: RuleId, key: string): Option<int>
  {
    match FindOpen(s.rows, rule, key)
    case Some(i) => s.rows[i].lastNotifiedAt
    case None => None
  }

  ghost function NewMark(item: LogItem, rule: RuleId, key: string, last: Option<int>): Option<int>
  {
    if !About(item, rule, key) then last
    else if item.Resolution? then None
    else if item.marked then Some(item.at) else last
  }

  lemma {:induction false} OpenIsUnique(rows: seq<AlertEvent>, rule: RuleId, key: string, i: EventId)
    requires OneOpen(rows) && i < |rows| && IsOpen(rows[i], rule, key)
    ensures FindOpen(rows, rule, key) == Some(i)
  {
  }

  /** A step appends at most one item, stamped with its own time, never sooner after the
      open mark than the window, and the open mark follows the item. */
  lemma {:induction false} RecordedIsPaced(s: AlertState, f: FiringRecord, o: Outcome, rule: RuleId, key: string,
                                           window: int)
    requires Inv(s)
    requires o.Passed? && About(Delivery(f.rule, f.key, 0, f.at, true, true), rule, key) ==> MayPass(s, f, window)
    ensures var s' := Recorded(s, f, o);
            if o.Passed? then
              exists id :: var item := Delivery(f.rule, f.key, id, f.at, o.marked, o.sent);
                && s'.log == s.log + [item]
                && (About(item, rule, key) && OpenMark(s, rule, key).Some? ==>
                      f.at - OpenMark(s, rule, key).value >= window)
                && OpenMark(s', rule, key) == NewMark(item, rule, key, OpenMark(s, rule, key))
            else s'.log == s.log && OpenMark(s', rule, key) == OpenMark(s, rule, key)
  {
    RecordKeepsRows(s, f);
    RecordedKeepsInv(s, f, o);
    var s' := Recorded(s, f, o);
    var (rows, id) := RecordFiring(s.rows, f);
    if o.Passed? {
      assert s'.log == s.log + [Delivery(f.rule, f.key, id, f.at, o.marked, o.sent)];
    }
    MarkFollows(s, s', f, o, rule, key);
  }

  lemma {:induction false} MarkFollows(s: AlertState, s': AlertState, f: FiringRecord, o: Outcome, rule: RuleId,
                                       key: string)
    requires Inv(s) && s' == Recorded(s, f, o) && Inv(s')
    ensures OpenMark(s', rule, key) ==
            if o.Passed? && o.marked && f.rule == rule && f.key == key then Some(f.at) else OpenMark(s, rule, key)
  {
    if o.Refused? {
      return;
    }
    if f.rule == rule && f.key == key {
      OwnMarkFollows(s, s', f, o);
    } else {
      OtherMarkStays(s, s', f, o, rule, key);
    }
  }

  lemma {:induction false} OwnMarkFollows(s: AlertState, s': AlertState, f: FiringRecord, o: Outcome)
    requires Inv(s) && s' == Recorded(s, f, o) && Inv(s') && !o.Refused?
    ensures OpenMark(s', f.rule, f.key) == if o.Passed? && o.marked then Some(f.at) else OpenMark(s, f.rule, f.key)
  {
    RecordKeepsRows(s, f);
    var (rows, id) := RecordFiring(s.rows, f);
    assert IsOpen(s'.rows[id], f.rule, f.key);
    OpenIsUnique(s'.rows, f.rule, f.key, id);
  }

  lemma {:induction false} OtherMarkStays(s: AlertState, s': AlertState, f: FiringRecord, o: Outcome, rule: RuleId,
                                          key: string)
    requires Inv(s) && s' == Recorded(s, f, o) && Inv(s') && !o.Refused? && (f.rule != rule || f.key != key)
    ensures OpenMark(s', rule, key) == OpenMark(s, rule, key)
  {
    RecordKeepsRows(s, f);
    match FindOpen(s.rows, rule, key)
    case Some(i) => OpenIsUnique(s'.rows, rule, key, i);
    case None => assert forall i :: 0 <= i < |s'.rows| ==> !IsOpen(s'.rows[i], rule, key);
  }

  lemma {:induction false} ResolveClears(s: AlertState, id: EventId, now: int, rule: RuleId, key: string)
    requires Inv(s) && id < |s.rows| && s.rows[id].state != Resolved
    ensures var s' := ResolveEvent(s, id, now);
            var item := Resolution(s.rows[id].rule, s.rows[id].key, id, now);
            s'.log == s.log + [item] && OpenMark(s', rule, key) == NewMark(item, rule, key, OpenMark(s, rule, key))
  {
    var s' := ResolveEvent(s, id, now);
    DoKeepsInv(s, ResolveStep(id, now));
    if IsOpen(s.rows[id], rule, key) {
      OpenIsUnique(s.rows, rule, key, id);
      assert forall i :: 0 <= i < |s'.rows| ==> !IsOpen(s'.rows[i], rule, key);
    } else {
      match FindOpen(s.rows, rule, key)
      case Some(i) => OpenIsUnique(s'.rows, rule, key, i);
      case None => assert forall i :: 0 <= i < |s'.rows| ==> !IsOpen(s'.rows[i], rule, key);
    }
  }

  /** Every raise of the rule uses at least this dedup window. */
  ghost predicate WindowAtLeast(steps: seq<Step>, rule: RuleId, window: int)
  {
    forall k :: 0 <= k < |steps| && steps[k].RaiseStep? && steps[k].rule.id == rule ==>
      EffectiveWindow(DedupWindow(steps[k].rule)) >= window
  }

  lemma {:induction false} StepIsPaced(s: AlertState, step: Step, rule: RuleId, key: string, window: int)
    returns (items: seq<LogItem>)
    requires Inv(s) && WindowAtLeast([step], rule, window)
    ensures Do(s, step).log == s.log + items && |items| <= 1
    ensures items != [] ==>
              && items[0].at == step.now
              && (items[0].Delivery? && About(items[0], rule, key) && OpenMark(s, rule, key).Some? ==>
                    items[0].at - OpenMark(s, rule, key).value >= window)
    ensures OpenMark(Do(s, step), rule, key) ==
            if items == [] then OpenMark(s, rule, key) else NewMark(items[0], rule, key, OpenMark(s, rule, key))
  {
    items := [];
    match step
    case RaiseStep(_, _, _, _, _, _) =>
      var f, o := FiringIn(step), OutcomeOf(s, step);
      RaiseIsRecorded(s, step);
      assert [step][0] == step;
      RecordedIsPaced(s, f, o, rule, key, window);
      if o.Passed? {
        items := [Do(s, step).log[|s.log|]];
      }
    case AcknowledgeStep(id, user, now) =>
      AcknowledgeKeepsMark(s, id, user, now, rule, key);
      assert s.log + [] == s.log;
    case ResolveStep(id, now) =>
      if id < |s.rows| && s.rows[id].state != Resolved {
        ResolveClears(s, id, now, rule, key);
        items := [Resolution(s.rows[id].rule, s.rows[id].key, id, now)];
      } else {
        assert s.log + [] == s.log;
      }
  }

  lemma {:induction false} AcknowledgeKeepsMark(s: AlertState, id: EventId, user: UserId, now: int, rule: RuleId,
                                                key: string)
    requires Inv(s)
    ensures var rows := AcknowledgeEvent(s.rows, id, user, now);
            && FindOpen(rows, rule, key) == FindOpen(s.rows, rule, key)
            && OpenMark(AlertState(rows, s.log), rule, key) == OpenMark(s, rule, key)
  {
    var rows := AcknowledgeEvent(s.rows, id, user, now);
    DoKeepsInv(s, AcknowledgeStep(id, user, now));
    match FindOpen(s.rows, rule, key)
    case Some(i) => OpenIsUnique(rows, rule, key, i);
    case None => assert forall i :: 0 <= i < |rows| ==> !IsOpen(rows[i], rule, key);
  }

  /** Over every run from a state that satisfies the invariants, the log of a rule and
      key is paced by the smallest window the rule had. */
  lemma {:induction false} RunIsPaced(s: AlertState, steps: seq<Step>, rule: RuleId, key: string, window: int)
    returns (items: seq<LogItem>)
    requires Inv(s) && WindowAtLeast(steps, rule, window)
    ensures DoAll(s, steps).log == s.log + items
    ensures Paced(items, rule, key, OpenMark(s, rule, key), window)
    ensures InStepOrder(items, steps)
    decreases |steps|
  {
    if steps == [] {
      items := [];
    } else {
      var step := steps[0];
      assert WindowAtLeast([step], rule, window);
      assert forall k :: 0 <= k < |steps| - 1 ==> steps[1..][k] == steps[k + 1];
      var first := StepIsPaced(s, step, rule, key, window);
      DoKeepsInv(s, step);
      var rest := RunIsPaced(Do(s, step), steps[1..], rule, key, window);
      items := first + rest;
      Associative(s.log, first, rest);
      if first == [] {
        assert items == rest;
        StepOrderLater(items, steps);
      } else {
        assert items[0] == first[0] && items[1..] == rest;
      }
    }
  }

  /** The items carry the times of the steps that appended them, in order. */
  ghost predicate InStepOrder(items: seq<LogItem>, steps: seq<Step>)
    decreases |steps|
  {
    if items == [] then true
    else if steps == [] then false
    else (items[0].at == steps[0].now && InStepOrder(items[1..], steps[1..])) || InStepOrder(items, steps[1..])
  }

  lemma {:induction false} StepOrderLater(items: seq<LogItem>, steps: seq<Step>)
    requires steps != [] && InStepOrder(items, steps[1..])
    ensures InStepOrder(items, steps)
  {
  }

  // ---------------------------------------------------------------------------
  // The rate of deliveries

  ghost function Count(items: seq<LogItem>, rule: RuleId, key: string, counted: LogItem -> bool): nat
    decreases |items|
  {
    if items == [] then 0
    else (if About(items[0], rule, key) && counted(items[0]) then 1 else 0) + Count(items[1..], rule, key, counted)
  }

  ghost function IsMarked(): LogItem -> bool { (item: LogItem) => item.Delivery? && item.marked }
  ghost function IsUnmarked(): LogItem -> bool { (item: LogItem) => item.Delivery? && !item.marked }
  ghost function IsSent(): LogItem -> bool { (item: LogItem) => item.Delivery? && item.sent }
  ghost function IsResolution(): LogItem -> bool { (item: LogItem) => item.Resolution? }

  /** Times do not decrease and stay within [from, until]. */
  ghost predicate Clocked(items: seq<LogItem>, from: int, until: int)
    decreases |items|
  {
    from <= until && (items != [] ==> from <= items[0].at <= until && Clocked(items[1..], items[0].at, until))
  }

  lemma {:induction false} LaterWindow(until: int, mark: int, at: int, window: int)
    requires window > 0 && at - mark >= window && at <= until
    ensures (until - at) / window + 1 <= (until - mark) / window
  {
    var q := (until - at) / window;
    assert until - at >= q * window;
    assert until - mark >= q * window + window == (q + 1) * window;
    DivAtLeast(until - mark, q + 1, window);
  }

  lemma {:induction false} TimesMonotone(a: int, b: int, d: int)
    requires d > 0 && a <= b
    ensures a * d <= b * d
  {
  }

  lemma {:induction false} DivAtLeast(n: int, q: int, d: int)
    requires d > 0 && n >= q * d
    ensures n / d >= q
  {
    assert n < (n / d + 1) * d;
    if n / d < q {
      TimesMonotone(n / d + 1, q, d);
    }
  }

  lemma {:induction false} DivMonotone(a: int, b: int, d: int)
    requires d > 0 && a <= b
    ensures a / d <= b / d
  {
    DivAtLeast(b, a / d, d);
  }

  lemma {:induction false} PacedBound(items: seq<LogItem>, rule: RuleId, key: string, last: Option<int>, window: int,
                                      from: int, until: int)
    requires window > 0 && Paced(items, rule, key, last, window) && Clocked(items, from, until)
    requires last.Some? ==> last.value <= from
    ensures Count(items, rule, key, IsMarked()) <= Count(items, rule, key, IsResolution())
            + (if last.Some? then (until - last.value) / window else (until - from) / window + 1)
    decreases |items|
  {
    if items == [] {
      if last.Some? {
        DivMonotone(0, until - last.value, window);
      } else {
        DivMonotone(0, until - from, window);
      }
    } else {
      var item := items[0];
      DivMonotone(until - item.at, until - from, window);
      if last.Some? {
        DivMonotone(until - item.at, until - last.value, window);
      }
      if !About(item, rule, key) || (item.Delivery? && !item.marked) {
        PacedBound(items[1..], rule, key, last, window, item.at, until);
      } else if item.Resolution? {
        PacedBound(items[1..], rule, key, None, window, item.at, until);
      } else {
        PacedBound(items[1..], rule, key, Some(item.at), window, item.at, until);
        if last.Some? {
          LaterWindow(until, last.value, item.at, window);
        }
      }
    }
  }

  lemma {:induction false} PacedForgets(items: seq<LogItem>, rule: RuleId, key: string, last: Option<int>, window: int)
    requires Paced(items, rule, key, last, window)
    ensures Paced(items, rule, key, None, window)
    decreases |items|
  {
    if items != [] {
      var item := items[0];
      if !About(item, rule, key) || (item.Delivery? && !item.marked) {
        PacedForgets(items[1..], rule, key, last, window);
      }
    }
  }

  /** Steps at non-decreasing times within [from, until]. */
  ghost predicate StepsClocked(steps: seq<Step>, from: int, until: int)
    decreases |steps|
  {
    from <= until && (steps != [] ==> from <= steps[0].now <= until && StepsClocked(steps[1..], steps[0].now, until))
  }

  lemma {:induction false} ItemsAreClocked(items: seq<LogItem>, steps: seq<Step>, from: int, until: int)
    requires InStepOrder(items, steps) && StepsClocked(steps, from, until)
    ensures Clocked(items, from, until)
    decreases |steps|
  {
    if items != [] {
      if items[0].at == steps[0].now && InStepOrder(items[1..], steps[1..]) {
        ItemsAreClocked(items[1..], steps[1..], steps[0].now, until);
      } else {
        ItemsAreClocked(items, steps[1..], steps[0].now, until);
      }
    }
  }

  lemma {:induction false} SentIsMarkedOrUnmarked(items: seq<LogItem>, rule: RuleId, key: string)
    ensures Count(items, rule, key, IsSent()) <= Count(items, rule, key, IsMarked())
            + Count(items, rule, key, IsUnmarked())
    decreases |items|
  {
    if items != [] {
      SentIsMarkedOrUnmarked(items[1..], rule, key);
    }
  }

  /** The rate of pages. `before` is any run, `steps` what happens in an interval
      [from, until] after it, r the resolutions of the rule and key in the interval and
      W a lower bound on the rule's dedup window there. At most (r + 1) + (until - from) / W
      deliveries are marked, and besides those only deliveries whose mark failed go out. */
  lemma {:induction false} DeliveryRate(before: seq<Step>, steps: seq<Step>, rule: RuleId, key: string, window: int,
                                        from: int, until: int)
    returns (items: seq<LogItem>)
    requires window > 0 && WindowAtLeast(steps, rule, window) && StepsClocked(steps, from, until)
    ensures var s := DoAll(START, before); DoAll(s, steps).log == s.log + items
    ensures var marked, r := Count(items, rule, key, IsMarked()), Count(items, rule, key, IsResolution());
            && marked <= r + 1 + (until - from) / window
            && Count(items, rule, key, IsSent()) <= marked + Count(items, rule, key, IsUnmarked())
  {
    var s := DoAll(START, before);
    RunKeepsInv(START, before);
    items := RunIsPaced(s, steps, rule, key, window);
    PacedForgets(items, rule, key, OpenMark(s, rule, key), window);
    ItemsAreClocked(items, steps, from, until);
    PacedBound(items, rule, key, None, window, from, until);
    SentIsMarkedOrUnmarked(items, rule, key);
  }

  /** No clock is needed for the gap itself: two marked deliveries with no resolution
      between them are at least a window apart, in every run. */
  lemma {:induction false} MarksAreAWindowApart(steps: seq<Step>, rule: RuleId, key: string, window: int, i: nat,
                                                j: nat)
    requires WindowAtLeast(steps, rule, window)
    requires var log := DoAll(START, steps).log;
             && i < j < |log| && log[i].Delivery? && log[j].Delivery? && log[i].marked
             && About(log[i], rule, key) && About(log[j], rule, key)
             && forall k :: i < k < j && About(log[k], rule, key) ==> log[k].Delivery? && !log[k].marked
    ensures var log := DoAll(START, steps).log; log[j].at - log[i].at >= window
  {
    RunKeepsInv(START, []);
    var items := RunIsPaced(START, steps, rule, key, window);
    assert items == DoAll(START, steps).log;
    PacedGap(items, rule, key, OpenMark(START, rule, key), window, i, j);
  }

  lemma {:induction false} PacedGap(items: seq<LogItem>, rule: RuleId, key: string, last: Option<int>, window: int,
                                    i: nat, j: nat)
    requires Paced(items, rule, key, last, window)
    requires i < j < |items| && items[i].Delivery? && items[j].Delivery? && items[i].marked
    requires About(items[i], rule, key) && About(items[j], rule, key)
    requires forall k :: i < k < j && About(items[k], rule, key) ==> items[k].Delivery? && !items[k].marked
    ensures items[j].at - items[i].at >= window
    decreases |items|
  {
    var item := items[0];
    if i == 0 {
      PacedReach(items[1..], rule, key, item.at, window, j - 1);
    } else {
      var next := NewMark(item, rule, key, last);
      PacedGap(items[1..], rule, key, next, window, i - 1, j - 1);
    }
  }

  lemma {:induction false} PacedReach(items: seq<LogItem>, rule: RuleId, key: string, mark: int, window: int, j: nat)
    requires Paced(items, rule, key, Some(mark), window)
    requires j < |items| && items[j].Delivery? && About(items[j], rule, key)
    requires forall k :: 0 <= k < j && About(items[k], rule, key) ==> items[k].Delivery? && !items[k].marked
    ensures items[j].at - mark >= window
    decreases |items|
  {
    if j > 0 {
      assert About(items[0], rule, key) ==> items[0].Delivery? && !items[0].marked;
      PacedReach(items[1..], rule, key, mark, window, j - 1);
    }
  }

  // ---------------------------------------------------------------------------
  // Acknowledgement

  ghost predicate OwnedNow(s: AlertState, rule: RuleId, key: string)
  {
    var open := FindOpen(s.rows, rule, key);
    open.Some? && s.rows[open.value].state == Acknowledged
  }

  lemma {:induction false} RecordedStaysOwned(s: AlertState, f: FiringRecord, o: Outcome, rule: RuleId, key: string,
                                              window: int)
    requires Inv(s) && OwnedNow(s, rule, key)
    requires o.Passed? ==> MayPass(s, f, window)
    ensures OwnedNow(Recorded(s, f, o), rule, key)
    ensures o.Passed? ==> f.rule != rule || f.key != key
  {
    if !o.Refused? {
      RecordKeepsRows(s, f);
      RecordedKeepsInv(s, f, o);
      var i := FindOpen(s.rows, rule, key).value;
      OpenIsUnique(Recorded(s, f, o).rows, rule, key, i);
    }
  }

  lemma {:induction false} StepStaysOwned(s: AlertState, step: Step, rule: RuleId, key: string)
    returns (items: seq<LogItem>)
    requires Inv(s) && OwnedNow(s, rule, key)
    ensures Do(s, step).log == s.log + items && |items| <= 1
    ensures items != [] && About(items[0], rule, key) ==> items[0].Resolution?
    ensures (items == [] || !About(items[0], rule, key)) ==> OwnedNow(Do(s, step), rule, key)
  {
    var i := FindOpen(s.rows, rule, key).value;
    DoKeepsInv(s, step);
    var s' := Do(s, step);
    items := [];
    match step
    case RaiseStep(_, _, _, _, _, _) =>
      var f, o := FiringIn(step), OutcomeOf(s, step);
      RaiseIsRecorded(s, step);
      RecordedStaysOwned(s, f, o, rule, key, EffectiveWindow(DedupWindow(step.rule)));
      if o.Passed? {
        items := [s'.log[|s.log|]];
      } else {
        assert s.log + [] == s.log;
      }
    case AcknowledgeStep(_, _, _) =>
      assert s.log + [] == s.log;
      OpenIsUnique(s'.rows, rule, key, i);
    case ResolveStep(id, now) =>
      if id < |s.rows| && s.rows[id].state != Resolved {
        items := [Resolution(s.rows[id].rule, s.rows[id].key, id, now)];
        if id != i {
          OpenIsUnique(s'.rows, rule, key, i);
        }
      } else {
        assert s.log + [] == s.log;
      }
  }

  /** The first item about the rule and key, if there is one, is a resolution. */
  ghost predicate QuietUntilResolved(items: seq<LogItem>, rule: RuleId, key: string)
    decreases |items|
  {
    items != [] ==>
      if About(items[0], rule, key) then items[0].Resolution? else QuietUntilResolved(items[1..], rule, key)
  }

  /** After an acknowledgement nothing is delivered for the rule and key until the event
      is resolved. */
  lemma {:induction false} AcknowledgedIsQuiet(s: AlertState, steps: seq<Step>, rule: RuleId, key: string)
    returns (items: seq<LogItem>)
    requires Inv(s) && OwnedNow(s, rule, key)
    ensures DoAll(s, steps).log == s.log + items && QuietUntilResolved(items, rule, key)
    decreases |steps|
  {
    if steps == [] {
      items := [];
    } else {
      var first := StepStaysOwned(s, steps[0], rule, key);
      var s1 := Do(s, steps[0]);
      DoKeepsInv(s, steps[0]);
      var rest: seq<LogItem>;
      if first != [] && About(first[0], rule, key) {
        rest := LogGrows(s1, steps[1..]);
      } else {
        rest := AcknowledgedIsQuiet(s1, steps[1..], rule, key);
      }
      items := first + rest;
      Associative(s.log, first, rest);
      if first == [] {
        assert items == rest;
      } else {
        assert items[0] == first[0] && items[1..] == rest;
      }
    }
  }

  lemma {:induction false} LogGrows(s: AlertState, steps: seq<Step>) returns (items: seq<LogItem>)
    requires Inv(s)
    ensures DoAll(s, steps).log == s.log + items
    decreases |steps|
  {
    if steps == [] {
      items := [];
    } else {
      DoKeepsInv(s, steps[0]);
      var first := Do(s, steps[0]).log;
      var rest := LogGrows(Do(s, steps[0]), steps[1..]);
      RaiseOrNot(s, steps[0]);
      items := first[|s.log|..] + rest;
      assert first == s.log + first[|s.log|..];
      Associative(s.log, first[|s.log|..], rest);
    }
  }

  lemma {:induction false} RaiseOrNot(s: AlertState, step: Step)
    ensures s.log <= Do(s, step).log
  {
    if step.RaiseStep? {
      RaiseIsRecorded(s, step);
    }
  }

  /** An acknowledgement makes a firing event owned, and does nothing to any other. */
  lemma {:induction false} AcknowledgeOwns(s: AlertState, id: EventId, user: UserId, now: int)
    requires Inv(s) && id < |s.rows|
    ensures var s' := Do(s, AcknowledgeStep(id, user, now));
            && (s.rows[id].state == Firing ==> OwnedNow(s', s.rows[id].rule, s.rows[id].key))
            && (s.rows[id].state != Firing ==> s' == s)
  {
    var s' := Do(s, AcknowledgeStep(id, user, now));
    DoKeepsInv(s, AcknowledgeStep(id, user, now));
    if s.rows[id].state == Firing {
      OpenIsUnique(s'.rows, s.rows[id].rule, s.rows[id].key, id);
    }
  }
}
