/** Raises that overlap (business/domain/integrationbus/integrationbus.go).

    AlertRuns takes a raise as one step. In the source it is three: it reads the open
    event; it records the firing and decides on what it read; and, after a call to the
    provider, it marks the event it recorded. Any number of raises, of one alert or of
    several, are between these steps at once, and people acknowledge and resolve
    meanwhile. The results say exactly when the dedup window and the silence after an
    acknowledgement still hold. */
module AlertOverlap {
  import opened Basics
  import opened Suppression
  import opened AlertBus
  import opened AlertRuns

  type Thread = nat

  const NO_WORLD: World := World(false, false, None, {}, false, false)

  const NO_RULE: AlertRule := AlertRule(0, 0, 0, UnknownCondition, 0, None, false)

  type Alarm = s: Step | s.RaiseStep?
    witness RaiseStep(NO_RULE, AlertPayload("", "", ""), 0, [], 0, NO_WORLD)

  /** A raise between its steps: it has read, or it has recorded and decided to deliver. */
  datatype Flight =
    | HasRead(alarm: Alarm, prior: Option<AlertEvent>)
    | Decided(alarm: Alarm, id: EventId)

  datatype Busy = Busy(alerts: AlertState, flights: map<Thread, Flight>)

  datatype Move =
    | Read(thread: Thread, alarm: Alarm)
    | Record(thread: Thread)
    | Send(thread: Thread)
    | Act(step: Step)

  /** The open event as a raise reads it. */
  function ReadBy(s: AlertState, alarm: Alarm): Option<AlertEvent>
  {
    PriorEvent(s.rows, alarm.rule.id, FiringIn(alarm).key)
  }

  predicate Decides(prior: Option<AlertEvent>, alarm: Alarm)
  {
    ShouldNotify(InputFor(alarm.rule, prior, alarm.windows, alarm.now)) == Deliver
  }

  predicate Enabled(s: Busy, m: Move)
  {
    match m
    case Read(t, _) => t !in s.flights
    case Record(t) => t in s.flights && s.flights[t].HasRead?
    case Send(t) => t in s.flights && s.flights[t].Decided?
    case Act(step) => !step.RaiseStep?
  }

  /** Sending and marking, on the tables. */
  function Sending(s: AlertState, alarm: Alarm, id: EventId): AlertState
  {
    var f, w := FiringIn(alarm), alarm.world;
    if SendAlert(w) == SendFailed then s
    else
      AlertState(if w.markOk then MarkNotified(s.rows, id, f.at) else s.rows,
                 s.log + [Delivery(f.rule, f.key, id, f.at, w.markOk, SendAlert(w) == Sent)])
  }

  function Next(s: Busy, m: Move): Busy
    requires Enabled(s, m)
  {
    match m
    case Read(t, alarm) =>
      if !alarm.world.queryOk then s else s.(flights := s.flights[t := HasRead(alarm, ReadBy(s.alerts, alarm))])
    case Record(t) =>
      var f := s.flights[t];
      if !f.alarm.world.recordOk then s.(flights := s.flights - {t})
      else
        var (rows, id) := RecordFiring(s.alerts.rows, FiringIn(f.alarm));
        Busy(AlertState(rows, s.alerts.log),
             if Decides(f.prior, f.alarm) then s.flights[t := Decided(f.alarm, id)] else s.flights - {t})
    case Send(t) => Busy(Sending(s.alerts, s.flights[t].alarm, s.flights[t].id), s.flights - {t})
    case Act(step) => s.(alerts := Do(s.alerts, step))
  }

  ghost predicate Run(s: Busy, moves: seq<Move>)
    decreases |moves|
  {
    moves != [] ==> Enabled(s, moves[0]) && Run(Next(s, moves[0]), moves[1..])
  }

  ghost function After(s: Busy, moves: seq<Move>): Busy
    requires Run(s, moves)
    decreases |moves|
  {
    if moves == [] then s else After(Next(s, moves[0]), moves[1..])
  }

  const IDLE: Busy := Busy(START, map[])

  lemma {:induction false} Prepend(s: Busy, m: Move, rest: seq<Move>)
    requires Enabled(s, m) && Run(Next(s, m), rest)
    ensures Run(s, [m] + rest) && After(s, [m] + rest) == After(Next(s, m), rest)
  {
    assert ([m] + rest)[1..] == rest;
  }

  lemma {:induction false} Append(s: Busy, a: seq<Move>, b: seq<Move>)
    requires Run(s, a) && Run(After(s, a), b)
    ensures Run(s, a + b) && After(s, a + b) == After(After(s, a), b)
    decreases |a|
  {
    if a == [] {
      assert a + b == b;
    } else {
      assert (a + b)[0] == a[0] && (a + b)[1..] == a[1..] + b;
      Append(Next(s, a[0]), a[1..], b);
    }
  }

  /** The steps of a raise with nothing in between. */
  function Alone(s: Busy, t: Thread, alarm: Alarm): Busy
    requires t !in s.flights
  {
    var a := Next(s, Read(t, alarm));
    var b := if t in a.flights then Next(a, Record(t)) else a;
    if t in b.flights then Next(b, Send(t)) else b
  }

  /** With nothing in between, the three steps are the raise of AlertRuns. */
  lemma {:induction false} UndisturbedIsARaise(s: Busy, t: Thread, alarm: Alarm)
    requires t !in s.flights
    ensures Alone(s, t, alarm) == Busy(Do(s.alerts, alarm), s.flights)
  {
    RaiseIsRecorded(s.alerts, alarm);
    var a := s.flights[t := HasRead(alarm, ReadBy(s.alerts, alarm))];
    assert a - {t} == s.flights;
    var (rows, id) := RecordFiring(s.alerts.rows, FiringIn(alarm));
    assert a[t := Decided(alarm, id)] - {t} == s.flights;
  }

  // ---------------------------------------------------------------------------
  // Every interleaving

  /** The event a flight recorded is one of its own rule and key. */
  ghost predicate FlightFits(rows: seq<AlertEvent>, f: Flight)
  {
    f.Decided? ==>
      f.id < |rows| && rows[f.id].rule == f.alarm.rule.id && rows[f.id].key == FiringIn(f.alarm).key
  }

  ghost predicate BusyInv(s: Busy)
  {
    Inv(s.alerts) && forall t | t in s.flights :: FlightFits(s.alerts.rows, s.flights[t])
  }

  /** The rows keep their places, rules and keys. */
  ghost predicate RowsGrow(rows: seq<AlertEvent>, after: seq<AlertEvent>)
  {
    |rows| <= |after| && forall i :: 0 <= i < |rows| ==> after[i].rule == rows[i].rule && after[i].key == rows[i].key
  }

  lemma {:induction false} LastMarkOfOneMore(log: seq<LogItem>, item: LogItem, id: EventId)
    ensures LastMarkOf(log + [item], id)
         == if item.Delivery? && item.event == id && item.marked then Some(item.at) else LastMarkOf(log, id)
  {
    assert (log + [item])[..|log|] == log;
  }

  lemma {:induction false} SendingKeepsInv(s: AlertState, alarm: Alarm, id: EventId)
    requires Inv(s) && FlightFits(s.rows, Decided(alarm, id))
    ensures Inv(Sending(s, alarm, id)) && RowsGrow(s.rows, Sending(s, alarm, id).rows)
  {
    var s' := Sending(s, alarm, id);
    if SendAlert(alarm.world) != SendFailed {
      forall i | 0 <= i < |s'.rows|
        ensures s'.rows[i].lastNotifiedAt == LastMarkOf(s'.log, i)
      {
        LastMarkOfOneMore(s.log, s'.log[|s.log|], i);
      }
    }
  }

  lemma {:induction false} StillFits(rows: seq<AlertEvent>, after: seq<AlertEvent>, f: Flight)
    requires FlightFits(rows, f) && RowsGrow(rows, after)
    ensures FlightFits(after, f)
  {
  }

  lemma {:induction false} RecordingFits(s: AlertState, alarm: Alarm)
    requires Inv(s)
    ensures var (rows, id) := RecordFiring(s.rows, FiringIn(alarm));
            RowsGrow(s.rows, rows) && FlightFits(rows, Decided(alarm, id))
  {
    RecordKeepsRows(s, FiringIn(alarm));
  }

  lemma {:induction false} ActGrows(s: AlertState, step: Step)
    requires Inv(s) && !step.RaiseStep?
    ensures Inv(Do(s, step)) && RowsGrow(s.rows, Do(s, step).rows)
  {
    DoKeepsInv(s, step);
  }

  lemma {:induction false} NextKeepsInv(s: Busy, m: Move)
    requires BusyInv(s) && Enabled(s, m)
    ensures BusyInv(Next(s, m)) && RowsGrow(s.alerts.rows, Next(s, m).alerts.rows)
  {
    var s' := Next(s, m);
    match m
    case Read(_, _) =>
    case Record(t) =>
      RecordingFits(s.alerts, s.flights[t].alarm);
      RecordedKeepsInv(s.alerts, FiringIn(s.flights[t].alarm), Quiet);
    case Send(t) =>
      SendingKeepsInv(s.alerts, s.flights[t].alarm, s.flights[t].id);
    case Act(step) =>
      ActGrows(s.alerts, step);
    forall t | t in s'.flights && t in s.flights && s'.flights[t] == s.flights[t]
      ensures FlightFits(s'.alerts.rows, s'.flights[t])
    {
      StillFits(s.alerts.rows, s'.alerts.rows, s.flights[t]);
    }
  }

  lemma {:induction false} RunKeepsBusyInv(s: Busy, moves: seq<Move>)
    requires BusyInv(s) && Run(s, moves)
    ensures BusyInv(After(s, moves))
    decreases |moves|
  {
    if moves != [] {
      NextKeepsInv(s, moves[0]);
      RunKeepsBusyInv(Next(s, moves[0]), moves[1..]);
    }
  }

  /** In every interleaving there is at most one open event per rule and dedup key, and
      what an event says about its last notification is the last marked delivery of it. */
  lemma {:induction false} EveryInterleavingKeepsHistory(moves: seq<Move>)
    requires Run(IDLE, moves)
    ensures var s := After(IDLE, moves).alerts;
            && OneOpen(s.rows)
            && forall i :: 0 <= i < |s.rows| ==> s.rows[i].lastNotifiedAt == LastMarkOf(s.log, i)
  {
    RunKeepsBusyInv(IDLE, moves);
  }

  // ---------------------------------------------------------------------------
  // What is still to come

  predicate IsAbout(f: Flight, rule: RuleId, key: string)
  {
    f.alarm.rule.id == rule && FiringIn(f.alarm).key == key
  }

  /** A raise under way delivers in the end: what it has read has decided that. */
  predicate Delivers(f: Flight)
  {
    && SendAlert(f.alarm.world) != SendFailed
    && (f.HasRead? ==> f.alarm.world.recordOk && Decides(f.prior, f.alarm))
  }

  predicate IsDue(s: Busy, t: Thread, rule: RuleId, key: string)
  {
    t in s.flights && IsAbout(s.flights[t], rule, key) && Delivers(s.flights[t])
  }

  predicate NoRead(moves: seq<Move>) { forall k :: 0 <= k < |moves| ==> !moves[k].Read? }

  /** What a move appends to the log. */
  function Added(s: Busy, m: Move): seq<LogItem>
    requires Enabled(s, m)
  {
    match m
    case Send(t) =>
      var f, w := FiringIn(s.flights[t].alarm), s.flights[t].alarm.world;
      if SendAlert(w) == SendFailed then []
      else [Delivery(f.rule, f.key, s.flights[t].id, f.at, w.markOk, SendAlert(w) == Sent)]
    case Act(ResolveStep(id, now)) =>
      if id < |s.alerts.rows| && s.alerts.rows[id].state != Resolved then
        [Resolution(s.alerts.rows[id].rule, s.alerts.rows[id].key, id, now)]
      else []
    case _ => []
  }

  lemma {:induction false} LogGrowsBy(s: Busy, m: Move)
    requires Enabled(s, m)
    ensures Next(s, m).alerts.log == s.alerts.log + Added(s, m)
  {
    assert s.alerts.log + [] == s.alerts.log;
  }

  /** Without reads nothing new becomes due, and what is due stays so until it is sent. */
  lemma {:induction false} DueShrinks(s: Busy, m: Move, t: Thread, rule: RuleId, key: string)
    requires Enabled(s, m) && !m.Read?
    ensures IsDue(Next(s, m), t, rule, key) ==>
              IsDue(s, t, rule, key) && Next(s, m).flights[t].alarm == s.flights[t].alarm
    ensures m.Send? && m.thread == t ==> !IsDue(Next(s, m), t, rule, key)
  {
  }

  lemma {:induction false} SentWasDue(s: Busy, m: Move, rule: RuleId, key: string)
    requires Enabled(s, m) && Added(s, m) != [] && Added(s, m)[0].Delivery? && About(Added(s, m)[0], rule, key)
    ensures m.Send? && IsDue(s, m.thread, rule, key)
    ensures Added(s, m)[0].at == s.flights[m.thread].alarm.now
    ensures Added(s, m)[0].marked == s.flights[m.thread].alarm.world.markOk
  {
  }

  /** The rest of a raise that is due. */
  function Rest(s: Busy, t: Thread): seq<Move>
    requires t in s.flights
  {
    if s.flights[t].HasRead? then [Record(t), Send(t)] else [Send(t)]
  }

  /** A raise that is due can finish, and delivers; the others are where they were. */
  lemma {:induction false} DueCanFinish(s: Busy, t: Thread, rule: RuleId, key: string)
    requires IsDue(s, t, rule, key)
    ensures Run(s, Rest(s, t)) && NoRead(Rest(s, t))
    ensures var u := After(s, Rest(s, t));
            && u.flights == s.flights - {t}
            && exists item :: u.alerts.log == s.alerts.log + [item] && item.Delivery? && About(item, rule, key)
                              && item.at == s.flights[t].alarm.now && item.marked == s.flights[t].alarm.world.markOk
  {
    if s.flights[t].HasRead? {
      var u := Next(s, Record(t));
      assert u.flights[t].Decided? && u.flights - {t} == s.flights - {t};
      SendDelivers(u, t, rule, key);
      Prepend(u, Send(t), []);
      Prepend(s, Record(t), [Send(t)] + []);
      assert [Record(t)] + ([Send(t)] + []) == Rest(s, t);
    } else {
      SendDelivers(s, t, rule, key);
      Prepend(s, Send(t), []);
      assert [Send(t)] + [] == Rest(s, t);
    }
  }

  lemma {:induction false} SendDelivers(s: Busy, t: Thread, rule: RuleId, key: string)
    requires IsDue(s, t, rule, key) && s.flights[t].Decided?
    ensures var u := Next(s, Send(t));
            && u.flights == s.flights - {t}
            && u.alerts.log == s.alerts.log + Added(s, Send(t)) && |Added(s, Send(t))| == 1
            && var item := Added(s, Send(t))[0];
               item.Delivery? && About(item, rule, key)
               && item.at == s.flights[t].alarm.now && item.marked == s.flights[t].alarm.world.markOk
  {
  }

  // ---------------------------------------------------------------------------
  // The dedup window

  /** The mark in force after a log. */
  ghost function MarkAfter(items: seq<LogItem>, rule: RuleId, key: string, last: Option<int>): Option<int>
    decreases |items|
  {
    if items == [] then last else MarkAfter(items[1..], rule, key, NewMark(items[0], rule, key, last))
  }

  lemma {:induction false} PacedConcat(a: seq<LogItem>, b: seq<LogItem>, rule: RuleId, key: string, last: Option<int>,
                                       window: int)
    ensures Paced(a + b, rule, key, last, window)
       <==> Paced(a, rule, key, last, window) && Paced(b, rule, key, MarkAfter(a, rule, key, last), window)
    ensures MarkAfter(a + b, rule, key, last) == MarkAfter(b, rule, key, MarkAfter(a, rule, key, last))
    decreases |a|
  {
    if a == [] {
      assert a + b == b;
    } else {
      assert (a + b)[0] == a[0] && (a + b)[1..] == a[1..] + b;
      PacedConcat(a[1..], b, rule, key, NewMark(a[0], rule, key, last), window);
    }
  }

  /** One more item fits a paced log unless it is a delivery too soon after the mark. */
  predicate Fits(item: LogItem, rule: RuleId, key: string, last: Option<int>, window: int)
  {
    item.Delivery? && item.rule == rule && item.key == key && last.Some? ==> item.at - last.value >= window
  }

  lemma {:induction false} OneMoreItem(log: seq<LogItem>, item: LogItem, rule: RuleId, key: string, window: int)
    ensures Paced(log + [item], rule, key, None, window)
       <==> Paced(log, rule, key, None, window) && Fits(item, rule, key, MarkAfter(log, rule, key, None), window)
    ensures MarkAfter(log + [item], rule, key, None) == NewMark(item, rule, key, MarkAfter(log, rule, key, None))
  {
    PacedConcat(log, [item], rule, key, None, window);
    assert [item][1..] == [];
  }

  ghost predicate LogPaced(s: Busy, rule: RuleId, key: string, window: int)
  {
    Paced(s.alerts.log, rule, key, None, window)
  }

  ghost function Mark(s: Busy, rule: RuleId, key: string): Option<int>
  {
    MarkAfter(s.alerts.log, rule, key, None)
  }

  /** What can be checked before the next step: every raise that is due is a window after
      the mark in force, and a window after every other one that is due and will mark. */
  ghost predicate PaceIsSafe(s: Busy, rule: RuleId, key: string, window: int)
  {
    && (forall t | IsDue(s, t, rule, key) && Mark(s, rule, key).Some? ::
          s.flights[t].alarm.now - Mark(s, rule, key).value >= window)
    && (forall t, u | IsDue(s, t, rule, key) && IsDue(s, u, rule, key) && t != u && s.flights[t].alarm.world.markOk ::
          s.flights[u].alarm.now - s.flights[t].alarm.now >= window)
  }

  lemma {:induction false} MoveKeepsPace(s: Busy, m: Move, rule: RuleId, key: string, window: int)
    requires Enabled(s, m) && !m.Read? && LogPaced(s, rule, key, window) && PaceIsSafe(s, rule, key, window)
    ensures LogPaced(Next(s, m), rule, key, window) && PaceIsSafe(Next(s, m), rule, key, window)
  {
    var s', added := Next(s, m), Added(s, m);
    LogGrowsBy(s, m);
    forall t
      ensures IsDue(s', t, rule, key) ==> IsDue(s, t, rule, key) && s'.flights[t].alarm == s.flights[t].alarm
      ensures m.Send? && m.thread == t ==> !IsDue(s', t, rule, key)
    {
      DueShrinks(s, m, t, rule, key);
    }
    if added == [] {
      assert s.alerts.log + [] == s.alerts.log;
    } else {
      assert added == [added[0]];
      OneMoreItem(s.alerts.log, added[0], rule, key, window);
      if added[0].Delivery? && About(added[0], rule, key) {
        SentWasDue(s, m, rule, key);
      }
    }
  }

  lemma {:induction false} RunKeepsPace(s: Busy, moves: seq<Move>, rule: RuleId, key: string, window: int)
    requires Run(s, moves) && NoRead(moves) && LogPaced(s, rule, key, window) && PaceIsSafe(s, rule, key, window)
    ensures LogPaced(After(s, moves), rule, key, window)
    decreases |moves|
  {
    if moves != [] {
      MoveKeepsPace(s, moves[0], rule, key, window);
      RunKeepsPace(Next(s, moves[0]), moves[1..], rule, key, window);
    }
  }

  ghost predicate StaysPaced(s: Busy, rule: RuleId, key: string, window: int)
  {
    forall moves | Run(s, moves) && NoRead(moves) :: LogPaced(After(s, moves), rule, key, window)
  }

  /** A raise that is due too soon after the mark delivers too soon. */
  lemma {:induction false} TooSoonAfterMark(s: Busy, t: Thread, rule: RuleId, key: string, window: int)
    requires IsDue(s, t, rule, key) && Mark(s, rule, key).Some?
    requires s.flights[t].alarm.now - Mark(s, rule, key).value < window
    ensures !StaysPaced(s, rule, key, window)
  {
    DueCanFinish(s, t, rule, key);
    var u := After(s, Rest(s, t));
    var item :| u.alerts.log == s.alerts.log + [item] && item.Delivery? && About(item, rule, key)
                && item.at == s.flights[t].alarm.now && item.marked == s.flights[t].alarm.world.markOk;
    OneMoreItem(s.alerts.log, item, rule, key, window);
    assert !LogPaced(u, rule, key, window);
  }

  /** A raise that marks makes another one that is due too soon. */
  lemma {:induction false} TooSoonAfterAnother(s: Busy, t: Thread, u: Thread, rule: RuleId, key: string, window: int)
    requires IsDue(s, t, rule, key) && IsDue(s, u, rule, key) && t != u && s.flights[t].alarm.world.markOk
    requires s.flights[u].alarm.now - s.flights[t].alarm.now < window
    ensures !StaysPaced(s, rule, key, window)
  {
    DueCanFinish(s, t, rule, key);
    var v := After(s, Rest(s, t));
    var item :| v.alerts.log == s.alerts.log + [item] && item.Delivery? && About(item, rule, key)
                && item.at == s.flights[t].alarm.now && item.marked == s.flights[t].alarm.world.markOk;
    OneMoreItem(s.alerts.log, item, rule, key, window);
    assert v.flights[u] == s.flights[u];
    TooSoonAfterMark(v, u, rule, key, window);
    var rest :| Run(v, rest) && NoRead(rest) && !LogPaced(After(v, rest), rule, key, window);
    Append(s, Rest(s, t), rest);
    assert NoRead(Rest(s, t) + rest);
  }

  /** In any state whose log keeps the window, with any number of raises under way, every
      continuation without a new read keeps it, acknowledgements and resolutions
      included, if and only if the state is safe. */
  lemma {:induction false} PaceIff(s: Busy, rule: RuleId, key: string, window: int)
    requires LogPaced(s, rule, key, window)
    ensures StaysPaced(s, rule, key, window) <==> PaceIsSafe(s, rule, key, window)
  {
    if PaceIsSafe(s, rule, key, window) {
      forall moves | Run(s, moves) && NoRead(moves)
        ensures LogPaced(After(s, moves), rule, key, window)
      {
        RunKeepsPace(s, moves, rule, key, window);
      }
    } else if t :| IsDue(s, t, rule, key) && Mark(s, rule, key).Some?
                   && s.flights[t].alarm.now - Mark(s, rule, key).value < window {
      TooSoonAfterMark(s, t, rule, key, window);
    } else {
      var t, u :| IsDue(s, t, rule, key) && IsDue(s, u, rule, key) && t != u && s.flights[t].alarm.world.markOk
                  && s.flights[u].alarm.now - s.flights[t].alarm.now < window;
      TooSoonAfterAnother(s, t, u, rule, key, window);
    }
  }

  // ---------------------------------------------------------------------------
  // Raises that do not overlap

  /** No raise of the alert reads, and nobody resolves the alert, while one that delivers
      is under way. Raises of other alerts, and ones that deliver nothing, may overlap. */
  ghost predicate Serial(s: Busy, moves: seq<Move>, rule: RuleId, key: string)
    requires Run(s, moves)
    decreases |moves|
  {
    moves != [] ==>
      && (Disturbs(s, moves[0], rule, key) ==> NoneDue(s, rule, key))
      && Serial(Next(s, moves[0]), moves[1..], rule, key)
  }

  predicate Disturbs(s: Busy, m: Move, rule: RuleId, key: string)
  {
    match m
    case Read(_, alarm) => alarm.rule.id == rule && FiringIn(alarm).key == key
    case Act(ResolveStep(id, _)) => id < |s.alerts.rows| && IsOpen(s.alerts.rows[id], rule, key)
    case _ => false
  }

  ghost predicate WindowsAtLeast(moves: seq<Move>, rule: RuleId, window: int)
  {
    forall k :: 0 <= k < |moves| && moves[k].Read? && moves[k].alarm.rule.id == rule ==>
      EffectiveWindow(DedupWindow(moves[k].alarm.rule)) >= window
  }

  ghost predicate NoneDue(s: Busy, rule: RuleId, key: string)
  {
    forall t :: !IsDue(s, t, rule, key)
  }

  ghost predicate AtMostOneDue(s: Busy, rule: RuleId, key: string)
  {
    forall t, u | IsDue(s, t, rule, key) && IsDue(s, u, rule, key) :: t == u
  }

  /** A raise that is due and has recorded will mark the open event. */
  ghost predicate DueIsOpen(s: Busy, rule: RuleId, key: string)
  {
    forall t | IsDue(s, t, rule, key) && s.flights[t].Decided? ::
      s.flights[t].id < |s.alerts.rows| && IsOpen(s.alerts.rows[s.flights[t].id], rule, key)
  }

  ghost predicate InStep(s: Busy, rule: RuleId, key: string, window: int)
  {
    && BusyInv(s) && LogPaced(s, rule, key, window) && PaceIsSafe(s, rule, key, window)
    && AtMostOneDue(s, rule, key) && DueIsOpen(s, rule, key)
    && Mark(s, rule, key) == OpenMark(s.alerts, rule, key)
  }

  lemma {:induction false} ReadKeepsStep(s: Busy, m: Move, rule: RuleId, key: string, window: int)
    requires InStep(s, rule, key, window) && Enabled(s, m) && m.Read? && WindowsAtLeast([m], rule, window)
    requires Disturbs(s, m, rule, key) ==> NoneDue(s, rule, key)
    ensures InStep(Next(s, m), rule, key, window)
  {
    var s' := Next(s, m);
    assert [m][0] == m;
    forall t | IsDue(s', t, rule, key)
      ensures t == m.thread ==> Disturbs(s, m, rule, key)
      ensures t != m.thread ==> IsDue(s, t, rule, key) && s'.flights[t] == s.flights[t]
    {
    }
    if Disturbs(s, m, rule, key) && IsDue(s', m.thread, rule, key) {
      ReadIsLate(s.alerts, m.alarm, window);
    }
  }

  /** A raise that decides to deliver has read a mark at least a window old, or none. */
  lemma {:induction false} ReadIsLate(s: AlertState, alarm: Alarm, window: int)
    requires Decides(ReadBy(s, alarm), alarm) && EffectiveWindow(DedupWindow(alarm.rule)) >= window
    ensures var mark := OpenMark(s, alarm.rule.id, FiringIn(alarm).key);
            mark.Some? ==> alarm.now - mark.value >= window
  {
    var open := FindOpen(s.rows, alarm.rule.id, FiringIn(alarm).key);
    if open.Some? && s.rows[open.value].lastNotifiedAt.Some? {
      DeliveredAfterWindow(InputFor(alarm.rule, Some(s.rows[open.value]), alarm.windows, alarm.now));
    }
  }

  lemma {:induction false} FewerDue(s: Busy, m: Move, rule: RuleId, key: string)
    requires Enabled(s, m) && !m.Read? && AtMostOneDue(s, rule, key)
    ensures AtMostOneDue(Next(s, m), rule, key)
  {
    forall t, u | IsDue(Next(s, m), t, rule, key) && IsDue(Next(s, m), u, rule, key)
      ensures t == u
    {
      DueShrinks(s, m, t, rule, key);
      DueShrinks(s, m, u, rule, key);
    }
  }

  lemma {:induction false} RecordKeepsStep(s: Busy, m: Move, rule: RuleId, key: string, window: int)
    requires InStep(s, rule, key, window) && Enabled(s, m) && m.Record?
    ensures InStep(Next(s, m), rule, key, window)
  {
    var s' := Next(s, m);
    var f := FiringIn(s.flights[m.thread].alarm);
    MoveKeepsPace(s, m, rule, key, window);
    FewerDue(s, m, rule, key);
    NextKeepsInv(s, m);
    if s.flights[m.thread].alarm.world.recordOk {
      RecordedKeepsInv(s.alerts, f, Quiet);
      MarkFollows(s.alerts, s'.alerts, f, Quiet, rule, key);
      RecordKeepsRows(s.alerts, f);
      RecordKeepsOpen(s.alerts, f);
    }
    forall t | IsDue(s', t, rule, key) && s'.flights[t].Decided?
      ensures s'.flights[t].id < |s'.alerts.rows| && IsOpen(s'.alerts.rows[s'.flights[t].id], rule, key)
    {
      DueShrinks(s, m, t, rule, key);
    }
  }

  lemma {:induction false} RecordKeepsOpen(s: AlertState, f: FiringRecord)
    requires Inv(s)
    ensures var rows := RecordFiring(s.rows, f).0;
            |rows| >= |s.rows| && forall i :: 0 <= i < |s.rows| ==>
              (rows[i].state, rows[i].rule, rows[i].key) == (s.rows[i].state, s.rows[i].rule, s.rows[i].key)
  {
  }

  lemma {:induction false} SendKeepsStep(s: Busy, m: Move, rule: RuleId, key: string, window: int)
    requires InStep(s, rule, key, window) && Enabled(s, m) && m.Send?
    ensures InStep(Next(s, m), rule, key, window)
  {
    var s' := Next(s, m);
    var alarm, id := s.flights[m.thread].alarm, s.flights[m.thread].id;
    MoveKeepsPace(s, m, rule, key, window);
    FewerDue(s, m, rule, key);
    NextKeepsInv(s, m);
    LogGrowsBy(s, m);
    forall t | IsDue(s', t, rule, key) && s'.flights[t].Decided?
      ensures s'.flights[t].id < |s'.alerts.rows| && IsOpen(s'.alerts.rows[s'.flights[t].id], rule, key)
    {
      DueShrinks(s, m, t, rule, key);
      assert IsDue(s, t, rule, key) && s.flights[t] == s'.flights[t];
    }
    if SendAlert(alarm.world) != SendFailed {
      OneMoreItem(s.alerts.log, Added(s, m)[0], rule, key, window);
      SendMoves(s.alerts, alarm, id, rule, key);
      if IsAbout(s.flights[m.thread], rule, key) {
        assert IsDue(s, m.thread, rule, key);
      }
    }
  }

  /** Marking moves the mark of the open event, if it is that one, and no other. */
  lemma {:induction false} SendMoves(s: AlertState, alarm: Alarm, id: EventId, rule: RuleId, key: string)
    requires Inv(s) && FlightFits(s.rows, Decided(alarm, id)) && SendAlert(alarm.world) != SendFailed
    requires alarm.rule.id == rule && FiringIn(alarm).key == key ==> IsOpen(s.rows[id], rule, key)
    ensures OpenMark(Sending(s, alarm, id), rule, key)
         == if alarm.rule.id == rule && FiringIn(alarm).key == key && alarm.world.markOk then Some(alarm.now)
            else OpenMark(s, rule, key)
  {
    var s' := Sending(s, alarm, id);
    SendingKeepsInv(s, alarm, id);
    if alarm.rule.id == rule && FiringIn(alarm).key == key {
      OpenIsUnique(s.rows, rule, key, id);
      OpenIsUnique(s'.rows, rule, key, id);
    } else {
      match FindOpen(s.rows, rule, key)
      case Some(i) => OpenIsUnique(s'.rows, rule, key, i);
      case None => assert forall i :: 0 <= i < |s'.rows| ==> !IsOpen(s'.rows[i], rule, key);
    }
  }

  lemma {:induction false} ActKeepsStep(s: Busy, m: Move, rule: RuleId, key: string, window: int)
    requires InStep(s, rule, key, window) && Enabled(s, m) && m.Act?
    requires Disturbs(s, m, rule, key) ==> NoneDue(s, rule, key)
    ensures InStep(Next(s, m), rule, key, window)
  {
    MoveKeepsPace(s, m, rule, key, window);
    FewerDue(s, m, rule, key);
    NextKeepsInv(s, m);
    ActMovesMark(s, m.step, rule, key, window);
    ActKeepsOpen(s, m, rule, key);
  }

  lemma {:induction false} ActMovesMark(s: Busy, step: Step, rule: RuleId, key: string, window: int)
    requires Inv(s.alerts) && !step.RaiseStep? && Mark(s, rule, key) == OpenMark(s.alerts, rule, key)
    ensures Mark(Next(s, Act(step)), rule, key) == OpenMark(Do(s.alerts, step), rule, key)
  {
    LogGrowsBy(s, Act(step));
    match step
    case AcknowledgeStep(id, user, now) =>
      AcknowledgeKeepsMark(s.alerts, id, user, now, rule, key);
    case ResolveStep(id, now) =>
      if id < |s.alerts.rows| && s.alerts.rows[id].state != Resolved {
        ResolveClears(s.alerts, id, now, rule, key);
        OneMoreItem(s.alerts.log, Added(s, Act(step))[0], rule, key, window);
      }
  }

  lemma {:induction false} ActKeepsOpen(s: Busy, m: Move, rule: RuleId, key: string)
    requires Enabled(s, m) && m.Act? && DueIsOpen(s, rule, key) && (Disturbs(s, m, rule, key) ==> NoneDue(s, rule, key))
    ensures DueIsOpen(Next(s, m), rule, key)
  {
    var s' := Next(s, m);
    forall t | IsDue(s', t, rule, key) && s'.flights[t].Decided?
      ensures s'.flights[t].id < |s'.alerts.rows| && IsOpen(s'.alerts.rows[s'.flights[t].id], rule, key)
    {
      assert IsDue(s, t, rule, key);
    }
  }

  lemma {:induction false} RunKeepsStep(s: Busy, moves: seq<Move>, rule: RuleId, key: string, window: int)
    requires InStep(s, rule, key, window) && Run(s, moves) && Serial(s, moves, rule, key)
    requires WindowsAtLeast(moves, rule, window)
    ensures InStep(After(s, moves), rule, key, window)
    decreases |moves|
  {
    if moves != [] {
      var m := moves[0];
      assert WindowsAtLeast([m], rule, window);
      if m.Read? {
        ReadKeepsStep(s, m, rule, key, window);
      } else if m.Record? {
        RecordKeepsStep(s, m, rule, key, window);
      } else if m.Send? {
        SendKeepsStep(s, m, rule, key, window);
      } else {
        ActKeepsStep(s, m, rule, key, window);
      }
      RunKeepsStep(Next(s, m), moves[1..], rule, key, window);
    }
  }

  /** In every interleaved run in which the raises that deliver an alert overlap neither
      each other nor its resolution, its deliveries keep the window. */
  lemma {:induction false} SerialRunIsPaced(moves: seq<Move>, rule: RuleId, key: string, window: int)
    requires Run(IDLE, moves) && Serial(IDLE, moves, rule, key) && WindowsAtLeast(moves, rule, window)
    ensures LogPaced(After(IDLE, moves), rule, key, window)
  {
    assert FindOpen([], rule, key) == None;
    RunKeepsStep(IDLE, moves, rule, key, window);
  }

  /** In sequence the second delivery needs a whole window. */
  lemma {:induction false} SequenceIsPaced(s: AlertState, a: Alarm, b: Alarm)
    requires Inv(s) && b.rule == a.rule && FiringIn(b).key == FiringIn(a).key
    requires OutcomeOf(s, a) == Passed(true, true) && OutcomeOf(Do(s, a), b).Passed?
    ensures b.now - a.now >= EffectiveWindow(DedupWindow(b.rule))
  {
    RaiseIsRecorded(s, a);
    RaiseIsRecorded(Do(s, a), b);
    RecordedKeepsInv(s, FiringIn(a), OutcomeOf(s, a));
    MarkFollows(s, Do(s, a), FiringIn(a), OutcomeOf(s, a), a.rule.id, FiringIn(a).key);
  }

  /** The window is lost from empty tables on: an active rule without a snooze, and a
      second raise that reads before the first has recorded, or after that, while the
      first is still talking to the provider. */
  lemma {:induction false} OverlapBreaksPace(alarm: Alarm, early: bool, window: int)
    requires alarm.rule.isActive && alarm.rule.snoozeUntil.None? && alarm.windows == [] && window > 0
    requires alarm.world.queryOk && alarm.world.recordOk && alarm.world.markOk && SendAlert(alarm.world) == Sent
    ensures var before := if early then [Read(0, alarm)] else [Read(0, alarm), Record(0)];
            var moves := before + [Read(1, alarm)];
            && Run(IDLE, moves)
            && !StaysPaced(After(IDLE, moves), alarm.rule.id, FiringIn(alarm).key, window)
  {
    var rule, key := alarm.rule.id, FiringIn(alarm).key;
    assert ReadBy(START, alarm) == None;
    var s1 := Next(IDLE, Read(0, alarm));
    if early {
      var s2 := Next(s1, Read(1, alarm));
      RunOfTwo(IDLE, Read(0, alarm), Read(1, alarm));
      assert [Read(0, alarm)] + [Read(1, alarm)] == [Read(0, alarm), Read(1, alarm)];
      TooSoonAfterAnother(s2, 0, 1, rule, key, window);
    } else {
      var s2 := Next(s1, Record(0));
      var s3 := Next(s2, Read(1, alarm));
      UnmarkedIsDelivered(alarm);
      RunOfThree(IDLE, Read(0, alarm), Record(0), Read(1, alarm));
      assert [Read(0, alarm), Record(0)] + [Read(1, alarm)] == [Read(0, alarm), Record(0), Read(1, alarm)];
      TooSoonAfterAnother(s3, 0, 1, rule, key, window);
    }
  }

  lemma {:induction false} UnmarkedIsDelivered(alarm: Alarm)
    requires alarm.rule.isActive && alarm.rule.snoozeUntil.None? && alarm.windows == []
    ensures Decides(ReadBy(Recorded(START, FiringIn(alarm), Quiet), alarm), alarm)
  {
    var s := Recorded(START, FiringIn(alarm), Quiet);
    FirstIsUnmarked(FiringIn(alarm));
    assert FindOpen(s.rows, alarm.rule.id, FiringIn(alarm).key) == Some(0);
    FreshDecides(alarm, s.rows[0]);
  }

  lemma {:induction false} FirstIsUnmarked(f: FiringRecord)
    ensures var rows := Recorded(START, f, Quiet).rows;
            |rows| == 1 && IsOpen(rows[0], f.rule, f.key) && rows[0].state == Firing && rows[0].lastNotifiedAt.None?
  {
    assert FindOpen([], f.rule, f.key) == None;
  }

  lemma {:induction false} FreshDecides(alarm: Alarm, e: AlertEvent)
    requires alarm.rule.isActive && alarm.rule.snoozeUntil.None? && alarm.windows == []
    requires e.state == Firing && e.lastNotifiedAt.None?
    ensures Decides(Some(e), alarm)
  {
  }

  lemma {:induction false} RunOfTwo(s: Busy, a: Move, b: Move)
    requires Enabled(s, a) && Enabled(Next(s, a), b)
    ensures Run(s, [a, b]) && After(s, [a, b]) == Next(Next(s, a), b)
  {
    Prepend(Next(s, a), b, []);
    Prepend(s, a, [b] + []);
    assert [a] + ([b] + []) == [a, b];
  }

  lemma {:induction false} RunOfThree(s: Busy, a: Move, b: Move, c: Move)
    requires Enabled(s, a) && Enabled(Next(s, a), b) && Enabled(Next(Next(s, a), b), c)
    ensures Run(s, [a, b, c]) && After(s, [a, b, c]) == Next(Next(Next(s, a), b), c)
  {
    RunOfTwo(Next(s, a), b, c);
    Prepend(s, a, [b, c]);
    assert [a] + [b, c] == [a, b, c];
  }

  // ---------------------------------------------------------------------------
  // The silence after an acknowledgement

  /** What was logged since, up to a resolution, holds no delivery of the alert. */
  ghost predicate QuietSince(s: Busy, t: Busy, rule: RuleId, key: string)
  {
    s.alerts.log <= t.alerts.log && QuietUntilResolved(t.alerts.log[|s.alerts.log|..], rule, key)
  }

  ghost predicate StaysQuiet(s: Busy, rule: RuleId, key: string)
  {
    forall moves | Run(s, moves) :: QuietSince(s, After(s, moves), rule, key)
  }

  /** A raise that reads an acknowledged event does not deliver. */
  lemma {:induction false} ReadOfOwnedIsQuiet(s: AlertState, alarm: Alarm)
    requires OwnedNow(s, alarm.rule.id, FiringIn(alarm).key)
    ensures !Decides(ReadBy(s, alarm), alarm)
  {
  }

  lemma {:induction false} MoveStaysQuiet(s: Busy, m: Move, rule: RuleId, key: string)
    requires BusyInv(s) && Enabled(s, m) && OwnedNow(s.alerts, rule, key) && NoneDue(s, rule, key)
    ensures var added := Added(s, m);
            if added != [] && About(added[0], rule, key) then added[0].Resolution?
            else OwnedNow(Next(s, m).alerts, rule, key) && NoneDue(Next(s, m), rule, key)
  {
    var s' := Next(s, m);
    match m
    case Read(t, alarm) =>
      if alarm.rule.id == rule && FiringIn(alarm).key == key {
        ReadOfOwnedIsQuiet(s.alerts, alarm);
      }
      assert forall u :: IsDue(s', u, rule, key) ==> u == t || IsDue(s, u, rule, key);
    case Record(t) =>
      RecordStaysOwned(s.alerts, FiringIn(s.flights[t].alarm), rule, key);
      forall u
        ensures !IsDue(s', u, rule, key)
      {
        DueShrinks(s, m, u, rule, key);
      }
    case Send(t) =>
      SendStaysOwned(s.alerts, s.flights[t].alarm, s.flights[t].id, rule, key);
      assert !IsDue(s, t, rule, key);
      if Added(s, m) != [] && About(Added(s, m)[0], rule, key) {
        SentWasDue(s, m, rule, key);
      }
      forall u
        ensures !IsDue(s', u, rule, key)
      {
        DueShrinks(s, m, u, rule, key);
      }
    case Act(step) =>
      ActStaysOwned(s, step, rule, key);
      assert s'.flights == s.flights;
      assert forall u :: IsDue(s', u, rule, key) <==> IsDue(s, u, rule, key);
  }

  lemma {:induction false} RecordStaysOwned(s: AlertState, f: FiringRecord, rule: RuleId, key: string)
    requires Inv(s) && OwnedNow(s, rule, key)
    ensures OwnedNow(Recorded(s, f, Quiet), rule, key)
  {
    RecordKeepsRows(s, f);
    OpenIsUnique(Recorded(s, f, Quiet).rows, rule, key, FindOpen(s.rows, rule, key).value);
  }

  lemma {:induction false} SendStaysOwned(s: AlertState, alarm: Alarm, id: EventId, rule: RuleId, key: string)
    requires Inv(s) && OwnedNow(s, rule, key) && FlightFits(s.rows, Decided(alarm, id))
    ensures OwnedNow(Sending(s, alarm, id), rule, key)
  {
    SendingKeepsInv(s, alarm, id);
    OpenIsUnique(Sending(s, alarm, id).rows, rule, key, FindOpen(s.rows, rule, key).value);
  }

  lemma {:induction false} ActStaysOwned(s: Busy, step: Step, rule: RuleId, key: string)
    requires BusyInv(s) && !step.RaiseStep? && OwnedNow(s.alerts, rule, key)
    ensures var added := Added(s, Act(step));
            if added != [] && About(added[0], rule, key) then added[0].Resolution?
            else OwnedNow(Do(s.alerts, step), rule, key)
  {
    DoKeepsInv(s.alerts, step);
    var i := FindOpen(s.alerts.rows, rule, key).value;
    match step
    case AcknowledgeStep(id, user, now) => AcknowledgedStays(s.alerts, id, user, now, i);
    case ResolveStep(id, now) => OthersStay(s.alerts, id, now, i);
    if Added(s, Act(step)) == [] || !About(Added(s, Act(step))[0], rule, key) {
      OpenIsUnique(Do(s.alerts, step).rows, rule, key, i);
    }
  }

  lemma {:induction false} AcknowledgedStays(s: AlertState, id: EventId, user: UserId, now: int, i: EventId)
    requires i < |s.rows| && s.rows[i].state == Acknowledged
    ensures var rows := AcknowledgeEvent(s.rows, id, user, now); |rows| == |s.rows| && rows[i] == s.rows[i]
  {
  }

  lemma {:induction false} OthersStay(s: AlertState, id: EventId, now: int, i: EventId)
    requires i < |s.rows|
    ensures var rows := ResolveEvent(s, id, now).rows; |rows| == |s.rows| && (i != id ==> rows[i] == s.rows[i])
  {
  }

  lemma {:induction false} RunStaysQuiet(s: Busy, moves: seq<Move>, rule: RuleId, key: string)
    requires BusyInv(s) && Run(s, moves) && OwnedNow(s.alerts, rule, key) && NoneDue(s, rule, key)
    ensures QuietSince(s, After(s, moves), rule, key)
    decreases |moves|
  {
    if moves != [] {
      var m := moves[0];
      var s', added := Next(s, m), Added(s, m);
      LogGrowsBy(s, m);
      MoveStaysQuiet(s, m, rule, key);
      NextKeepsInv(s, m);
      LogOnlyGrows(s', moves[1..]);
      var end := After(s', moves[1..]).alerts.log;
      var later := end[|s'.alerts.log|..];
      RestOfLog(s.alerts.log, added, end);
      if added == [] || !About(added[0], rule, key) {
        RunStaysQuiet(s', moves[1..], rule, key);
        assert added != [] ==> (added + later)[1..] == later;
      }
    }
  }

  lemma {:induction false} LogOnlyGrows(s: Busy, moves: seq<Move>)
    requires Run(s, moves)
    ensures s.alerts.log <= After(s, moves).alerts.log
    decreases |moves|
  {
    if moves != [] {
      LogGrowsBy(s, moves[0]);
      LogOnlyGrows(Next(s, moves[0]), moves[1..]);
    }
  }

  lemma {:induction false} RestOfLog(log: seq<LogItem>, added: seq<LogItem>, end: seq<LogItem>)
    requires log + added <= end
    ensures log <= end && end[|log|..] == added + end[|log| + |added|..]
  {
  }

  /** In any state of any run, after an acknowledgement nothing is delivered for the rule
      and key until the event is resolved, new raises included, if and only if no raise
      that is due was under way. */
  lemma {:induction false} AcknowledgedIsQuietIff(s: Busy, rule: RuleId, key: string)
    requires BusyInv(s) && OwnedNow(s.alerts, rule, key)
    ensures StaysQuiet(s, rule, key) <==> NoneDue(s, rule, key)
  {
    if NoneDue(s, rule, key) {
      forall moves | Run(s, moves)
        ensures QuietSince(s, After(s, moves), rule, key)
      {
        RunStaysQuiet(s, moves, rule, key);
      }
    } else {
      var t :| IsDue(s, t, rule, key);
      DueCanFinish(s, t, rule, key);
      var u := After(s, Rest(s, t));
      var item :| u.alerts.log == s.alerts.log + [item] && item.Delivery? && About(item, rule, key);
      assert u.alerts.log[|s.alerts.log|..] == [item];
      assert !QuietSince(s, u, rule, key);
    }
  }
}
