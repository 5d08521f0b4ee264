/** What a failed store call costs the grouping worker, and what is announced.

    A failing event does not stop the others, but four things the source promises are true
    only in part: an issue whose first event fails after the insert is never announced; a
    regression is announced again for every later event until someone resolves it; an
    issue left empty by a failed detach stays until retention; and a claim holds its rows for no longer
    than the statement. Each is stated with the exact condition. */
module GroupingFailures {
  import opened Basics
  import opened Grouping
  import opened GroupingRuns

  // ---------------------------------------------------------------------------
  // Failures stay with their event

  lemma {:induction false} HandleAllLeavesOthers(s: State, ids: seq<EventId>, attempts: Attempts, i: nat)
    requires (forall k :: 0 <= k < |ids| ==> ids[k] < |s.rows|) && i < |s.rows| && i !in ids
    ensures |HandleAll(s, ids, attempts).0.rows| == |s.rows| && HandleAll(s, ids, attempts).0.rows[i] == s.rows[i]
    decreases |ids|
  {
    if ids != [] {
      HandleKeepsOthers(s, ids[0], attempts(ids[0]));
      var (t, stop) := Handle(s, ids[0], attempts(ids[0]));
      if !stop {
        HandleAllLeavesOthers(t, ids[1..], attempts, i);
      }
    }
  }

  /** What becomes of an event that was handled: it is attached, or set aside, or will be
      taken again; and attached if all its calls worked. */
  predicate Handled(r: Row, a: Attempt)
  {
    && (r.processed || Claimable(r))
    && (a.failure == NoFailure ==>
          r.processed && r.issue.Some? && r.fingerprint == a.fingerprint && r.version == a.version)
  }

  lemma {:induction false} HandledUnlessStopped(s: State, id: EventId, a: Attempt)
    requires id < |s.rows|
    ensures var (t, stop) := Handle(s, id, a);
            && id < |t.rows| && t.rows[id].attempts == s.rows[id].attempts
            && (if stop then a.failure != NoFailure && a.markFails else Handled(t.rows[id], a))
  {
  }

  /** How far the loop gets: everything before is handled, and if it stops, it does so at
      an event that failed and whose failure could not be recorded, and leaves the rest as
      they were claimed. */
  lemma {:induction false} HowFar(s: State, ids: seq<EventId>, attempts: Attempts) returns (n: nat)
    requires AllWaiting(s.rows, ids)
    ensures var (t, stop) := HandleAll(s, ids, attempts);
            && n <= |ids| && (stop <==> n < |ids|) && |t.rows| == |s.rows|
            && (forall k :: 0 <= k < n ==> Handled(t.rows[ids[k]], attempts(ids[k])))
            && (forall k :: n < k < |ids| ==> t.rows[ids[k]] == s.rows[ids[k]])
            && (stop ==> attempts(ids[n]).failure != NoFailure && attempts(ids[n]).markFails)
    decreases |ids|
  {
    if ids == [] {
      n := 0;
    } else {
      var id, a := ids[0], attempts(ids[0]);
      HandleKeepsOthers(s, id, a);
      HandledUnlessStopped(s, id, a);
      RestStillWaits(s, ids, a);
      var (t, stop) := Handle(s, id, a);
      if stop {
        n := 0;
      } else {
        var m := HowFar(t, ids[1..], attempts);
        n := m + 1;
        assert id !in ids[1..];
        HandleAllLeavesOthers(t, ids[1..], attempts, id);
        LaterAsBefore(s, t, HandleAll(t, ids[1..], attempts).0, ids, attempts, m);
      }
    }
  }

  lemma {:induction false} LaterAsBefore(s: State, t: State, u: State, ids: seq<EventId>, attempts: Attempts, m: nat)
    requires AllWaiting(s.rows, ids) && ids != [] && m < |ids| && |t.rows| == |s.rows| && |u.rows| == |s.rows|
    requires t.rows == s.rows[ids[0] := t.rows[ids[0]]]
    requires u.rows[ids[0]] == t.rows[ids[0]] && Handled(t.rows[ids[0]], attempts(ids[0]))
    requires forall k :: 0 <= k < m ==> Handled(u.rows[ids[1..][k]], attempts(ids[1..][k]))
    requires forall k :: m < k < |ids| - 1 ==> u.rows[ids[1..][k]] == t.rows[ids[1..][k]]
    ensures forall k :: 0 <= k < m + 1 ==> Handled(u.rows[ids[k]], attempts(ids[k]))
    ensures forall k :: m + 1 < k < |ids| ==> u.rows[ids[k]] == s.rows[ids[k]]
  {
    forall k | 0 <= k < m + 1
      ensures Handled(u.rows[ids[k]], attempts(ids[k]))
    {
      assert k > 0 ==> ids[k] == ids[1..][k - 1];
    }
    forall k | m + 1 < k < |ids|
      ensures u.rows[ids[k]] == s.rows[ids[k]]
    {
      assert ids[k] == ids[1..][k - 1];
    }
  }

  /** A batch, whatever fails. Up to the event where it stops, those whose calls all work
      are attached and the others are set aside or will be taken again. It stops where an
      event fails and recording that fails too; the events behind that one have lost an
      attempt and nothing else. */
  lemma {:induction false} FailuresStayLocal(s: State, limit: nat, w: World) returns (n: nat)
    ensures var (t, ids, stop) := Batch(s, limit, w);
            && n <= |ids| && (stop <==> n < |ids|) && |t.rows| == |s.rows|
            && (forall k :: 0 <= k < |ids| ==> ids[k] < |s.rows| && Claimable(s.rows[ids[k]]))
            && (forall k :: 0 <= k < n ==> Handled(t.rows[ids[k]], w.attempts(ids[k])))
            && (forall k :: n < k < |ids| ==>
                  t.rows[ids[k]] == s.rows[ids[k]].(attempts := s.rows[ids[k]].attempts + 1))
            && (stop ==> w.attempts(ids[n]).failure != NoFailure && w.attempts(ids[n]).markFails)
  {
    ClaimTakes(s.rows, limit, 0);
    var (rows, taken) := Claim(s.rows, limit, 0);
    var ids := InSomeOrder(taken, w.order);
    ClaimedWait(s.rows, limit, ids);
    n := HowFar(s.(rows := rows), ids, w.attempts);
    TakenRows(s.rows, limit, ids);
  }

  lemma {:induction false} TakenRows(rows: seq<Row>, limit: nat, ids: seq<EventId>)
    requires IsReordering(Claim(rows, limit, 0).1, ids)
    ensures forall k :: 0 <= k < |ids| ==> ids[k] < |rows| && Claimable(rows[ids[k]])
    ensures forall k :: 0 <= k < |ids| ==>
              Claim(rows, limit, 0).0[ids[k]] == rows[ids[k]].(attempts := rows[ids[k]].attempts + 1)
  {
    ClaimTakes(rows, limit, 0);
    forall k | 0 <= k < |ids|
      ensures ids[k] < |rows| && Claimable(rows[ids[k]])
      ensures Claim(rows, limit, 0).0[ids[k]] == rows[ids[k]].(attempts := rows[ids[k]].attempts + 1)
    {
      assert ids[k] in Claim(rows, limit, 0).1;
      ClaimCounts(rows, limit, 0, ids[k]);
    }
  }

  // ---------------------------------------------------------------------------
  // Announcements

  lemma {:induction false} FoundIsTheOne(issues: seq<Option<Issue>>, r: Row, fingerprint: string, issue: IssueId)
    requires OneEach(issues) && issue < |issues| && IsIssueOf(issues[issue], r, fingerprint)
    ensures FindIssue(issues, r, fingerprint) == Some(issue)
  {
    var found := FindIssue(issues, r, fingerprint);
    if found.value < issue {
      assert SameIssue(issues[found.value].value, issues[issue].value);
    } else if issue < found.value {
      assert SameIssue(issues[issue].value, issues[found.value].value);
    }
  }

  /** How an issue came to be: the event of the attempt that created it, whether that
      event was grouped for the first time, and whether the attempt got as far as
      attaching it. */
  datatype Birth = Birth(event: EventId, first: bool, attached: bool)

  predicate Attaches(r: Row, a: Attempt)
  {
    a.failure != AtAttach && !(a.failure == AtFacets && HasFacets(r))
  }

  function BirthsIn(s: State, id: EventId, a: Attempt): seq<Birth>
    requires id < |s.rows|
  {
    var r := s.rows[id];
    if a.failure != AtUpsert && FindIssue(s.issues, r, a.fingerprint).None? then
      [Birth(id, r.issue.None?, Attaches(r, a))]
    else []
  }

  function BirthsInAll(s: State, ids: seq<EventId>, attempts: Attempts): seq<Birth>
    requires forall k :: 0 <= k < |ids| ==> ids[k] < |s.rows|
    decreases |ids|
  {
    if ids == [] then []
    else
      HandleKeepsOthers(s, ids[0], attempts(ids[0]));
      var (t, stop) := Handle(s, ids[0], attempts(ids[0]));
      BirthsIn(s, ids[0], attempts(ids[0])) + (if stop then [] else BirthsInAll(t, ids[1..], attempts))
  }

  function BirthsInStep(s: State, op: Op): seq<Birth>
  {
    if !op.Process? then []
    else
      ClaimTakes(s.rows, op.limit, 0);
      var (rows, taken) := Claim(s.rows, op.limit, 0);
      var ids := InSomeOrder(taken, op.world.order);
      OnlyTaken(taken, ids, |rows|);
      BirthsInAll(s.(rows := rows), ids, op.world.attempts)
  }

  /** The births of a run, in order: the i-th is that of issue i. */
  function Births(s: State, ops: seq<Op>): seq<Birth>
    decreases |ops|
  {
    if ops == [] then [] else BirthsInStep(s, ops[0]) + Births(Step(s, ops[0]), ops[1..])
  }

  ghost predicate IsOpened(log: seq<Announcement>, issue: IssueId)
  {
    exists k :: 0 <= k < |log| && log[k].Opened? && log[k].issue == issue
  }

  /** There is one birth per issue, and it says whether the issue was announced. */
  ghost predicate Told(s: State, births: seq<Birth>)
  {
    && |births| == |s.issues|
    && forall i :: 0 <= i < |births| ==> (IsOpened(s.log, i) <==> births[i].first && births[i].attached)
  }

  lemma {:induction false} OpenedByOneMore(log: seq<Announcement>, item: Announcement, issue: IssueId)
    ensures IsOpened(log + [item], issue) <==> IsOpened(log, issue) || (item.Opened? && item.issue == issue)
  {
    var after := log + [item];
    if k :| 0 <= k < |log| && log[k].Opened? && log[k].issue == issue {
      assert after[k] == log[k];
    }
    assert after[|log|] == item;
  }

  /** What an attempt does to the issues and the log. */
  lemma {:induction false} AttemptTells(s: State, id: EventId, a: Attempt)
    requires id < |s.rows|
    ensures var t := Handle(s, id, a).0;
            var births := BirthsIn(s, id, a);
            && |t.issues| == |s.issues| + |births|
            && (births != [] && births[0].first && births[0].attached ==> t.log == s.log + [Opened(|s.issues|, id)])
            && (births == [] || !births[0].first || !births[0].attached ==>
                  t.log == s.log || exists i :: t.log == s.log + [Regressed(i, id)])
  {
    var r := s.rows[id];
    var (found, issue, created) := UpsertIssue(s.issues, r, a.fingerprint);
    assert Announce(s.log, r, id, issue, false, true) == s.log
        || Announce(s.log, r, id, issue, false, true) == s.log + [Regressed(issue, id)];
  }

  lemma {:induction false} HandleTells(s: State, id: EventId, a: Attempt, births: seq<Birth>)
    requires id < |s.rows| && Inv(s) && Told(s, births)
    ensures Told(Handle(s, id, a).0, births + BirthsIn(s, id, a))
  {
    var t := Handle(s, id, a).0;
    var all := births + BirthsIn(s, id, a);
    AttemptTells(s, id, a);
    forall i | 0 <= i < |all|
      ensures IsOpened(t.log, i) <==> all[i].first && all[i].attached
    {
      if t.log != s.log {
        OpenedByOneMore(s.log, t.log[|s.log|], i);
        assert t.log == s.log + [t.log[|s.log|]];
      }
      assert IsOpened(s.log, i) ==> i < |s.issues|;
    }
  }

  lemma {:induction false} HandleAllTells(s: State, ids: seq<EventId>, attempts: Attempts, births: seq<Birth>)
    requires (forall k :: 0 <= k < |ids| ==> ids[k] < |s.rows|) && Inv(s) && Told(s, births)
    ensures Told(HandleAll(s, ids, attempts).0, births + BirthsInAll(s, ids, attempts))
    decreases |ids|
  {
    if ids == [] {
      assert births + [] == births;
    } else {
      HandleTells(s, ids[0], attempts(ids[0]), births);
      HandleKeepsInv(s, ids[0], attempts(ids[0]));
      HandleKeepsOthers(s, ids[0], attempts(ids[0]));
      var (t, stop) := Handle(s, ids[0], attempts(ids[0]));
      var now := BirthsIn(s, ids[0], attempts(ids[0]));
      if stop {
        assert now + [] == now;
      } else {
        HandleAllTells(t, ids[1..], attempts, births + now);
        Associative(births, now, BirthsInAll(t, ids[1..], attempts));
      }
    }
  }

  lemma {:induction false} StepTells(s: State, op: Op, births: seq<Birth>)
    requires Inv(s) && Told(s, births)
    ensures Told(Step(s, op), births + BirthsInStep(s, op))
  {
    if op.Process? {
      ClaimKeepsInv(s, op.limit);
      ClaimTakes(s.rows, op.limit, 0);
      var (rows, taken) := Claim(s.rows, op.limit, 0);
      var ids := InSomeOrder(taken, op.world.order);
      OnlyTaken(taken, ids, |rows|);
      HandleAllTells(s.(rows := rows), ids, op.world.attempts, births);
    } else {
      assert births + [] == births;
    }
  }

  lemma {:induction false} RunTells(s: State, ops: seq<Op>, births: seq<Birth>)
    requires Inv(s) && Told(s, births)
    ensures Told(Run(s, ops), births + Births(s, ops))
    decreases |ops|
  {
    if ops == [] {
      assert births + [] == births;
    } else {
      StepTells(s, ops[0], births);
      StepKeepsInv(s, ops[0]);
      RunTells(Step(s, ops[0]), ops[1..], births + BirthsInStep(s, ops[0]));
      Associative(births, BirthsInStep(s, ops[0]), Births(Step(s, ops[0]), ops[1..]));
    }
  }

  /** In every run an issue is announced as opened, at whatever time, if and only if the
      attempt that created it attached an event that was on no issue before. */
  lemma {:induction false} OpenedIff(ops: seq<Op>, issue: IssueId)
    requires issue < |Run(EMPTY, ops).issues|
    ensures |Births(EMPTY, ops)| == |Run(EMPTY, ops).issues|
    ensures IsOpened(Run(EMPTY, ops).log, issue) <==>
            Births(EMPTY, ops)[issue].first && Births(EMPTY, ops)[issue].attached
  {
    RunTells(EMPTY, ops, []);
    assert [] + Births(EMPTY, ops) == Births(EMPTY, ops);
  }

  lemma {:induction false} RunConcat(s: State, a: seq<Op>, b: seq<Op>)
    ensures Run(s, a + b) == Run(Run(s, a), b)
    decreases |a|
  {
    if a == [] {
      assert a + b == b;
    } else {
      assert (a + b)[0] == a[0] && (a + b)[1..] == a[1..] + b;
      RunConcat(Step(s, a[0]), a[1..], b);
    }
  }

  lemma {:induction false} BirthsConcat(s: State, a: seq<Op>, b: seq<Op>)
    ensures Births(s, a + b) == Births(s, a) + Births(Run(s, a), b)
    decreases |a|
  {
    if a == [] {
      assert a + b == b;
      assert [] + Births(s, b) == Births(s, b);
    } else {
      assert (a + b)[0] == a[0] && (a + b)[1..] == a[1..] + b;
      var t := Step(s, a[0]);
      BirthsConcat(t, a[1..], b);
      Associative(BirthsInStep(s, a[0]), Births(t, a[1..]), Births(Run(t, a[1..]), b));
    }
  }

  /** So one that was passed over is never announced: no retry, no other event of its
      fingerprint and no later regrouping makes up for it. */
  lemma {:induction false} NeverOpenedLater(before: seq<Op>, after: seq<Op>, issue: IssueId)
    requires issue < |Run(EMPTY, before).issues|
    ensures issue < |Run(EMPTY, before + after).issues|
    ensures IsOpened(Run(EMPTY, before + after).log, issue) <==> IsOpened(Run(EMPTY, before).log, issue)
  {
    RunTells(EMPTY, before, []);
    RunTells(EMPTY, before + after, []);
    RunConcat(EMPTY, before, after);
    BirthsConcat(EMPTY, before, after);
    var births := Births(EMPTY, before);
    assert [] + births == births && [] + Births(EMPTY, before + after) == Births(EMPTY, before + after);
    assert Births(EMPTY, before + after)[issue] == births[issue];
  }

  /** A failure of the first event after the insert does pass the issue over. */
  lemma {:induction false} LateFailurePassesOver(s: State, id: EventId, a: Attempt)
    requires Inv(s) && id < |s.rows| && FindIssue(s.issues, s.rows[id], a.fingerprint).None?
    requires a.failure == AtAttach || (a.failure == AtFacets && HasFacets(s.rows[id]))
    ensures |Handle(s, id, a).0.issues| == |s.issues| + 1
    ensures !IsOpened(Handle(s, id, a).0.log, |s.issues|)
  {
    assert Handle(s, id, a).0.log == s.log;
  }

  /** What TouchIssue returns: true for a resolved issue, and for every one that is still
      flagged from an earlier regression. */
  lemma {:induction false} ReopenedIff(i: Issue)
    requires FlagsAgree(i)
    ensures Reopened(i) <==> i.status == Resolved || i.regressed
    ensures (Reopened(i) <==> i.status == Resolved) <==> !i.regressed
    ensures Reopened(i) ==> Touched(i).regressed
  {
  }

  ghost predicate NewEventsOf(s: State, ids: seq<EventId>, attempts: Attempts, issue: IssueId)
  {
    && issue < |s.issues| && s.issues[issue].Some? && s.issues[issue].value.regressed
    && (forall k :: 0 <= k < |ids| ==>
          ids[k] < |s.rows| && s.rows[ids[k]].issue.None? && attempts(ids[k]).failure == NoFailure
          && IsIssueOf(s.issues[issue], s.rows[ids[k]], attempts(ids[k]).fingerprint))
    && (forall j, k :: 0 <= j < k < |ids| ==> ids[j] < ids[k])
  }

  lemma {:induction false} RegressedIsAnnounced(s: State, ids: seq<EventId>, attempts: Attempts, issue: IssueId)
    requires Inv(s) && NewEventsOf(s, ids, attempts, issue) && ids != []
    ensures var (t, stop) := Handle(s, ids[0], attempts(ids[0]));
            && !stop && t.log == s.log + [Regressed(issue, ids[0])] && t.issues == s.issues
            && t.rows == s.rows[ids[0] := t.rows[ids[0]]]
  {
    var id, a := ids[0], attempts(ids[0]);
    FoundIsTheOne(s.issues, s.rows[id], a.fingerprint, issue);
    ReopenedIff(s.issues[issue].value);
  }

  /** While an issue is flagged, every new event of it is announced as a regression, not
      only the one that brought it back. */
  lemma {:induction false} RegressionRepeats(s: State, ids: seq<EventId>, attempts: Attempts, issue: IssueId)
    requires Inv(s) && NewEventsOf(s, ids, attempts, issue)
    ensures var t := HandleAll(s, ids, attempts).0;
            && |t.log| == |s.log| + |ids|
            && forall k :: 0 <= k < |ids| ==> t.log[|s.log| + k] == Regressed(issue, ids[k])
    decreases |ids|
  {
    if ids != [] {
      RegressedIsAnnounced(s, ids, attempts, issue);
      HandleKeepsInv(s, ids[0], attempts(ids[0]));
      var t := Handle(s, ids[0], attempts(ids[0])).0;
      RestIsNew(s, t, ids, attempts, issue);
      RegressionRepeats(t, ids[1..], attempts, issue);
      LogStays(t, ids[1..], attempts);
      RepeatsFollow(s.log, t.log, HandleAll(t, ids[1..], attempts).0.log, ids, issue);
    }
  }

  lemma {:induction false} RestIsNew(s: State, t: State, ids: seq<EventId>, attempts: Attempts, issue: IssueId)
    requires NewEventsOf(s, ids, attempts, issue) && ids != []
    requires t.issues == s.issues && |t.rows| == |s.rows| && t.rows == s.rows[ids[0] := t.rows[ids[0]]]
    ensures NewEventsOf(t, ids[1..], attempts, issue)
  {
    assert forall k :: 0 <= k < |ids| - 1 ==> ids[1..][k] == ids[k + 1];
  }

  lemma {:induction false} RepeatsFollow(log: seq<Announcement>, next: seq<Announcement>, last: seq<Announcement>,
                                         ids: seq<EventId>, issue: IssueId)
    requires ids != [] && next == log + [Regressed(issue, ids[0])] && next <= last
    requires |last| == |next| + |ids| - 1
    requires forall k :: 0 <= k < |ids| - 1 ==> last[|next| + k] == Regressed(issue, ids[1..][k])
    ensures forall k :: 0 <= k < |ids| ==> last[|log| + k] == Regressed(issue, ids[k])
  {
    assert last[|log|] == next[|log|];
    forall k | 0 <= k < |ids|
      ensures last[|log| + k] == Regressed(issue, ids[k])
    {
      if k > 0 {
        assert last[|next| + (k - 1)] == Regressed(issue, ids[1..][k - 1]);
      }
    }
  }

  lemma {:induction false} LogStays(s: State, ids: seq<EventId>, attempts: Attempts)
    requires forall k :: 0 <= k < |ids| ==> ids[k] < |s.rows|
    ensures s.log <= HandleAll(s, ids, attempts).0.log
    decreases |ids|
  {
    if ids != [] {
      HandleKeepsOthers(s, ids[0], attempts(ids[0]));
      var (t, stop) := Handle(s, ids[0], attempts(ids[0]));
      if !stop {
        LogStays(t, ids[1..], attempts);
      }
    }
  }

  /** An event that is being grouped again announces nothing, and stays on an issue. */
  lemma {:induction false} RegroupIsSilent(s: State, id: EventId, a: Attempt)
    requires id < |s.rows| && s.rows[id].issue.Some?
    ensures Handle(s, id, a).0.log == s.log && Handle(s, id, a).0.rows[id].issue.Some?
  {
  }

  // ---------------------------------------------------------------------------
  // Empty issues

  ghost predicate NoneEmpty(s: State)
  {
    forall i :: 0 <= i < |s.issues| && s.issues[i].Some? ==> HasEvents(s.rows, i)
  }

  /** The attempts that leave an issue behind with no event on it: one that creates an
      issue and does not attach, and one that moves the last event away and fails to
      detach it. */
  predicate LeavesEmpty(s: State, id: EventId, a: Attempt)
    requires id < |s.rows|
  {
    var r := s.rows[id];
    var (issues, issue, created) := UpsertIssue(s.issues, r, a.fingerprint);
    var attaches := a.failure != AtAttach && !(a.failure == AtFacets && HasFacets(r));
    && a.failure != AtUpsert
    && (if created && !attaches then true
        else
          && attaches && a.failure == AtDetach
          && r.issue.Some? && r.issue.value != issue
          && forall k :: 0 <= k < |s.rows| && k != id ==> s.rows[k].issue != r.issue)
  }

  /** After an attempt every issue has an event, if it had before, exactly when the attempt
      is not one of those. */
  lemma {:induction false} EmptyIssuesIff(s: State, id: EventId, a: Attempt)
    requires Inv(s) && NoneEmpty(s) && id < |s.rows|
    ensures NoneEmpty(Handle(s, id, a).0) <==> !LeavesEmpty(s, id, a)
  {
    var r := s.rows[id];
    var t := Handle(s, id, a).0;
    var (found, issue, created) := UpsertIssue(s.issues, r, a.fingerprint);
    if a.failure != AtUpsert && (created || a.failure != AtTouch) {
      PrepareKeeps(s, id, a);
      if (HasFacets(r) && a.failure == AtFacets) || a.failure == AtAttach {
        UnattachedIff(s, t, id, issue, created);
      } else {
        MovedIff(s, t, id, issue, a);
      }
    } else {
      SameEvents(s.rows, t.rows);
    }
  }

  /** Rows that are on the same issues. */
  lemma {:induction false} SameEvents(a: seq<Row>, b: seq<Row>)
    requires |a| == |b| && forall k :: 0 <= k < |a| ==> a[k].issue == b[k].issue
    ensures forall i: IssueId :: HasEvents(a, i) <==> HasEvents(b, i)
  {
    forall i: IssueId
      ensures HasEvents(a, i) <==> HasEvents(b, i)
    {
      if HasEvents(a, i) {
        var k :| 0 <= k < |a| && a[k].issue == Some(i);
        assert b[k].issue == Some(i);
      }
      if HasEvents(b, i) {
        var k :| 0 <= k < |b| && b[k].issue == Some(i);
        assert a[k].issue == Some(i);
      }
    }
  }

  lemma {:induction false} UnattachedIff(s: State, t: State, id: EventId, issue: IssueId, created: bool)
    requires Inv(s) && NoneEmpty(s) && id < |s.rows|
    requires |t.rows| == |s.rows| && forall k :: 0 <= k < |s.rows| ==> t.rows[k].issue == s.rows[k].issue
    requires if created then issue == |s.issues| && |t.issues| == issue + 1 && t.issues[issue].Some?
             else |t.issues| == |s.issues|
    requires forall i :: 0 <= i < |s.issues| ==> (t.issues[i].Some? <==> s.issues[i].Some?)
    ensures NoneEmpty(t) <==> !created
  {
    SameEvents(s.rows, t.rows);
    forall i: IssueId | HasEvents(s.rows, i)
      ensures i < |s.issues|
    {
      var k :| 0 <= k < |s.rows| && s.rows[k].issue == Some(i);
      assert Fits(s.rows[k], s.issues);
    }
  }

  /** The events of the issues, once an event has moved. */
  lemma {:induction false} EventsAfterMove(rows: seq<Row>, after: seq<Row>, id: EventId, issue: IssueId)
    requires id < |rows| && |after| == |rows| && after[id].issue == Some(issue)
    requires forall k :: 0 <= k < |rows| && k != id ==> after[k].issue == rows[k].issue
    ensures HasEvents(after, issue)
    ensures forall i: IssueId :: i != issue && rows[id].issue != Some(i) ==>
              (HasEvents(after, i) <==> HasEvents(rows, i))
    ensures forall i: IssueId :: i != issue && rows[id].issue == Some(i) ==>
              (HasEvents(after, i) <==> exists k :: 0 <= k < |rows| && k != id && rows[k].issue == Some(i))
  {
    forall i: IssueId | i != issue
      ensures HasEvents(after, i) <==> exists k :: 0 <= k < |rows| && k != id && rows[k].issue == Some(i)
    {
      if HasEvents(after, i) {
        var k :| 0 <= k < |after| && after[k].issue == Some(i);
        assert k != id && rows[k].issue == Some(i);
      }
      if k :| 0 <= k < |rows| && k != id && rows[k].issue == Some(i) {
        assert after[k].issue == Some(i);
      }
    }
    forall i: IssueId | i != issue && rows[id].issue != Some(i)
      ensures HasEvents(after, i) <==> HasEvents(rows, i)
    {
      if k :| 0 <= k < |rows| && rows[k].issue == Some(i) {
        assert k != id;
      }
    }
  }

  lemma {:induction false} MovedIff(s: State, t: State, id: EventId, issue: IssueId, a: Attempt)
    requires Inv(s) && NoneEmpty(s) && id < |s.rows| && t == Handle(s, id, a).0
    requires issue == UpsertIssue(s.issues, s.rows[id], a.fingerprint).1 && issue < |Prepared(s, id, a)|
    requires a.failure != AtUpsert && a.failure != AtAttach && !(a.failure == AtFacets && HasFacets(s.rows[id]))
    requires UpsertIssue(s.issues, s.rows[id], a.fingerprint).2 || a.failure != AtTouch
    requires forall i :: 0 <= i < |s.issues| ==> (Prepared(s, id, a)[i].Some? <==> s.issues[i].Some?)
    ensures NoneEmpty(t) <==> !LeavesEmpty(s, id, a)
  {
    var r := s.rows[id];
    var issues := Prepared(s, id, a);
    var rows := s.rows[id := Attached(r, issue, a)];
    EventsAfterMove(s.rows, rows, id, issue);
    SameEvents(rows, t.rows);
    var moved := r.issue.Some? && r.issue != Some(issue);
    if moved {
      assert Fits(r, s.issues);
      assert t.issues == if a.failure == AtDetach then issues else DetachFrom(rows, issues, r.issue.value);
    } else {
      assert t.issues == issues;
    }
  }

  // ---------------------------------------------------------------------------
  // An empty issue stays

  ghost predicate IsEmptyIssue(s: State, issue: IssueId)
  {
    issue < |s.issues| && s.issues[issue].Some? && !HasEvents(s.rows, issue)
  }

  /** The step gives no event this fingerprint, and retention does not find the issue old. */
  ghost predicate Spares(op: Op, issue: IssueId, fingerprint: string)
  {
    && (op.Process? ==> forall id :: op.world.attempts(id).fingerprint != fingerprint)
    && (op.AgeOut? ==> issue !in op.issues)
  }

  lemma {:induction false} HandleKeepsEmpty(s: State, id: EventId, a: Attempt, issue: IssueId)
    requires id < |s.rows| && IsEmptyIssue(s, issue) && a.fingerprint != s.issues[issue].value.fingerprint
    ensures var t := Handle(s, id, a).0;
            IsEmptyIssue(t, issue) && t.issues[issue].value.fingerprint == s.issues[issue].value.fingerprint
  {
    var t := Handle(s, id, a).0;
    HandleKeepsOthers(s, id, a);
    assert s.rows[id].issue != Some(issue);
    assert t.rows[id].issue != Some(issue);
    forall k | 0 <= k < |t.rows|
      ensures t.rows[k].issue != Some(issue)
    {
      assert s.rows[k].issue != Some(issue);
    }
  }

  lemma {:induction false} HandleAllKeepsEmpty(s: State, ids: seq<EventId>, attempts: Attempts, issue: IssueId)
    requires (forall k :: 0 <= k < |ids| ==> ids[k] < |s.rows|) && IsEmptyIssue(s, issue)
    requires forall id :: attempts(id).fingerprint != s.issues[issue].value.fingerprint
    ensures var t := HandleAll(s, ids, attempts).0;
            IsEmptyIssue(t, issue) && t.issues[issue].value.fingerprint == s.issues[issue].value.fingerprint
    decreases |ids|
  {
    if ids != [] {
      HandleKeepsEmpty(s, ids[0], attempts(ids[0]), issue);
      HandleKeepsOthers(s, ids[0], attempts(ids[0]));
      var (t, stop) := Handle(s, ids[0], attempts(ids[0]));
      if !stop {
        HandleAllKeepsEmpty(t, ids[1..], attempts, issue);
      }
    }
  }

  lemma {:induction false} StepKeepsEmpty(s: State, op: Op, issue: IssueId)
    requires IsEmptyIssue(s, issue) && Spares(op, issue, s.issues[issue].value.fingerprint)
    ensures var t := Step(s, op);
            IsEmptyIssue(t, issue) && t.issues[issue].value.fingerprint == s.issues[issue].value.fingerprint
  {
    match op
    case Process(limit, world) =>
      var (rows, taken) := Claim(s.rows, limit, 0);
      ClaimTakes(s.rows, limit, 0);
      forall k | 0 <= k < |rows|
        ensures rows[k].issue == s.rows[k].issue
      {
        ClaimCounts(s.rows, limit, 0, k);
      }
      SameEvents(s.rows, rows);
      var ids := InSomeOrder(taken, world.order);
      OnlyTaken(taken, ids, |rows|);
      HandleAllKeepsEmpty(s.(rows := rows), ids, world.attempts, issue);
    case Regroup(release) =>
      SameEvents(s.rows, RequeueAll(s.rows, release));
    case Ingest(_, _, _, _) =>
      var rows := s.rows + [Arrived(op)];
      forall k | 0 <= k < |rows|
        ensures rows[k].issue != Some(issue)
      {
        assert k < |s.rows| ==> s.rows[k].issue != Some(issue);
      }
    case Triage(_, _) =>
    case AgeOut(_) =>
  }

  /** Only retention removes an empty issue: until that finds it old it stays, without
      events, for as long as no event is given its fingerprint again. */
  lemma {:induction false} EmptyIssueStays(s: State, ops: seq<Op>, issue: IssueId)
    requires IsEmptyIssue(s, issue)
    requires forall k :: 0 <= k < |ops| ==> Spares(ops[k], issue, s.issues[issue].value.fingerprint)
    ensures IsEmptyIssue(Run(s, ops), issue)
    decreases |ops|
  {
    if ops != [] {
      StepKeepsEmpty(s, ops[0], issue);
      EmptyIssueStays(Step(s, ops[0]), ops[1..], issue);
    }
  }

  /** So a detach that fails once is never made up for: the retry finds the event on its
      new issue already, and the old issue stays, empty, until retention. */
  lemma {:induction false} FailedDetachIsForGood(s: State, id: EventId, a: Attempt, ops: seq<Op>)
    requires Inv(s) && NoneEmpty(s) && id < |s.rows| && s.rows[id].issue.Some?
    requires a.failure == AtDetach && LeavesEmpty(s, id, a)
    requires a.fingerprint != s.rows[id].fingerprint
    requires forall k :: 0 <= k < |ops| ==> Spares(ops[k], s.rows[id].issue.value, s.rows[id].fingerprint)
    ensures IsEmptyIssue(Run(Handle(s, id, a).0, ops), s.rows[id].issue.value)
  {
    var r := s.rows[id];
    var t := Handle(s, id, a).0;
    assert Fits(r, s.issues);
    PrepareKeeps(s, id, a);
    var issue := UpsertIssue(s.issues, r, a.fingerprint).1;
    var rows := s.rows[id := Attached(r, issue, a)];
    EventsAfterMove(s.rows, rows, id, issue);
    SameEvents(rows, t.rows);
    assert t.issues == Prepared(s, id, a);
    EmptyIssueStays(t, ops, r.issue.value);
  }

  /** And retention does remove it, when it finds it old. */
  lemma {:induction false} RetentionRemovesEmpty(s: State, aged: set<IssueId>, issue: IssueId)
    requires Inv(s) && issue < |s.issues| && s.issues[issue].Some?
    ensures Step(s, AgeOut(aged)).issues[issue].None? <==> issue in aged && IsEmptyIssue(s, issue)
  {
  }

  // ---------------------------------------------------------------------------
  // Claims

  /** A claim holds nothing once its statement is over. A second worker that claims as
      many rows, or more, before the first has grouped an event takes it too, exactly when
      it has attempts left. */
  lemma {:induction false} ClaimedAgainIff(rows: seq<Row>, limit: nat, more: nat, id: EventId)
    requires more >= limit && id in Claim(rows, limit, 0).1
    ensures id < |rows|
    ensures id in Claim(Claim(rows, limit, 0).0, more, 0).1 <==> rows[id].attempts + 1 < MAX_ATTEMPTS
  {
    ClaimTakes(rows, limit, 0);
    ClaimedAgainFrom(rows, limit, more, 0, id);
  }

  lemma {:induction false} ClaimedAgainFrom(rows: seq<Row>, limit: nat, more: nat, base: nat, i: nat)
    requires i < |rows| && more >= limit && base + i in Claim(rows, limit, base).1
    ensures base + i in Claim(Claim(rows, limit, base).0, more, base).1 <==> rows[i].attempts + 1 < MAX_ATTEMPTS
    decreases |rows|
  {
    var (claimed, ids) := Claim(rows, limit, base);
    ClaimTakes(rows, limit, base);
    ClaimTakes(claimed, more, base);
    ClaimTakes(rows[1..], if Claimable(rows[0]) then limit - 1 else limit, base + 1);
    ClaimTakes(claimed[1..], if Claimable(claimed[0]) then more - 1 else more, base + 1);
    if i > 0 {
      var left := if Claimable(rows[0]) then limit - 1 else limit;
      assert base + 1 + (i - 1) in Claim(rows[1..], left, base + 1).1;
      ClaimedAgainFrom(rows[1..], left, if Claimable(claimed[0]) then more - 1 else more, base + 1, i - 1);
    }
  }
}
