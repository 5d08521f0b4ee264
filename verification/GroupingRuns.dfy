/** What every run of the grouping worker keeps, and where it ends.

    A run interleaves arriving events, batches with any failures, triage by people, the
    requeueing that follows the upload of a source map, and retention. */
module GroupingRuns {
  import opened Basics
  import opened Grouping

  datatype Op =
    | Ingest(org: Option<nat>, project: Option<nat>, user: Option<nat>, release: string)
    | Process(limit: nat, world: World)
    | Triage(issue: IssueId, status: Status)
    | Regroup(release: string)
    | AgeOut(issues: set<IssueId>)

  const EMPTY: State := State([], [], [])

  function Arrived(op: Op): Row
    requires op.Ingest?
  {
    Row(op.org, op.project, op.user, op.release, "", 0, None, false, 0)
  }

  function Step(s: State, op: Op): State
  {
    match op
    case Ingest(_, _, _, _) => s.(rows := s.rows + [Arrived(op)])
    case Process(limit, world) => Batch(s, limit, world).0
    case Triage(issue, status) =>
      if issue < |s.issues| && s.issues[issue].Some? then
        s.(issues := s.issues[issue := Some(Triaged(s.issues[issue].value, status))])
      else s
    case Regroup(release) => s.(rows := RequeueAll(s.rows, release))
    case AgeOut(issues) => s.(issues := AgedOut(s.rows, s.issues, issues))
  }

  function Run(s: State, ops: seq<Op>): State
    decreases |ops|
  {
    if ops == [] then s else Run(Step(s, ops[0]), ops[1..])
  }

  // ---------------------------------------------------------------------------
  // The invariant

  /** An issue is one fingerprint within one scope: the project when there is one,
      otherwise the organization, otherwise the anonymous bucket. */
  datatype Scope = InProject(id: nat) | InOrg(id: nat) | Anonymous

  function ScopeOf(org: Option<nat>, project: Option<nat>): Scope
  {
    if project.Some? then InProject(project.value) else if org.Some? then InOrg(org.value) else Anonymous
  }

  predicate SameIssue(a: Issue, b: Issue)
  {
    a.fingerprint == b.fingerprint && ScopeOf(a.org, a.project) == ScopeOf(b.org, b.project)
  }

  ghost predicate OneEach(issues: seq<Option<Issue>>)
  {
    forall i, j :: 0 <= i < j < |issues| && issues[i].Some? && issues[j].Some? ==>
      !SameIssue(issues[i].value, issues[j].value)
  }

  predicate FlagsAgree(i: Issue) { (i.status == Resolved <==> i.resolved) && (i.regressed ==> i.status != Resolved) }

  ghost predicate AllFlagsAgree(issues: seq<Option<Issue>>)
  {
    forall i :: 0 <= i < |issues| && issues[i].Some? ==> FlagsAgree(issues[i].value)
  }

  /** The issue of an event is there, and is the one its fingerprint and scope name. */
  predicate Fits(r: Row, issues: seq<Option<Issue>>)
  {
    r.issue.Some? ==> r.issue.value < |issues| && IsIssueOf(issues[r.issue.value], r, r.fingerprint)
  }

  ghost predicate AllFit(rows: seq<Row>, issues: seq<Option<Issue>>)
  {
    forall k :: 0 <= k < |rows| ==> Fits(rows[k], issues)
  }

  /** Done with means attached, or out of attempts. */
  predicate Sound(r: Row)
  {
    r.attempts <= MAX_ATTEMPTS && (r.processed ==> r.issue.Some? || r.attempts == MAX_ATTEMPTS)
  }

  ghost predicate AllSound(rows: seq<Row>) { forall k :: 0 <= k < |rows| ==> Sound(rows[k]) }

  /** No event is announced twice, and no issue is announced as opened twice. */
  ghost predicate AnnouncedOnce(log: seq<Announcement>)
  {
    && (forall j, k :: 0 <= j < k < |log| ==> log[j].event != log[k].event)
    && (forall j, k :: 0 <= j < k < |log| && log[j].Opened? && log[k].Opened? ==> log[j].issue != log[k].issue)
  }

  ghost predicate LogIsPast(log: seq<Announcement>, rows: seq<Row>, issues: nat)
  {
    forall k :: 0 <= k < |log| ==> log[k].event < |rows| && rows[log[k].event].issue.Some? && log[k].issue < issues
  }

  ghost predicate Inv(s: State)
  {
    && OneEach(s.issues) && AllFlagsAgree(s.issues)
    && AllFit(s.rows, s.issues) && AllSound(s.rows)
    && AnnouncedOnce(s.log) && LogIsPast(s.log, s.rows, |s.issues|)
  }

  // ---------------------------------------------------------------------------
  // Steps of grouping an event

  lemma {:induction false} UpsertKeeps(s: State, r: Row, fingerprint: string)
    requires OneEach(s.issues) && AllFlagsAgree(s.issues) && AllFit(s.rows, s.issues)
    ensures var (issues, issue, created) := UpsertIssue(s.issues, r, fingerprint);
            && |issues| >= |s.issues| && issue < |issues| && IsIssueOf(issues[issue], r, fingerprint)
            && (created ==> issue == |s.issues|)
            && OneEach(issues) && AllFlagsAgree(issues) && AllFit(s.rows, issues)
  {
  }

  /** An issue may change in anything but what identifies it. */
  lemma {:induction false} ChangeKeeps(rows: seq<Row>, issues: seq<Option<Issue>>, issue: IssueId, i: Issue)
    requires issue < |issues| && issues[issue].Some? && FlagsAgree(i)
    requires (i.org, i.project, i.fingerprint)
          == (issues[issue].value.org, issues[issue].value.project, issues[issue].value.fingerprint)
    requires OneEach(issues) && AllFlagsAgree(issues) && AllFit(rows, issues)
    ensures var t := issues[issue := Some(i)];
            OneEach(t) && AllFlagsAgree(t) && AllFit(rows, t)
  {
    var t := issues[issue := Some(i)];
    forall a, b | 0 <= a < b < |t| && t[a].Some? && t[b].Some?
      ensures !SameIssue(t[a].value, t[b].value)
    {
      assert !SameIssue(issues[a].value, issues[b].value);
    }
    forall k | 0 <= k < |rows|
      ensures Fits(rows[k], t)
    {
      assert Fits(rows[k], issues);
    }
  }

  lemma {:induction false} DetachKeeps(rows: seq<Row>, issues: seq<Option<Issue>>, issue: IssueId)
    requires OneEach(issues) && AllFlagsAgree(issues) && AllFit(rows, issues)
    ensures var t := DetachFrom(rows, issues, issue);
            |t| == |issues| && OneEach(t) && AllFlagsAgree(t) && AllFit(rows, t)
  {
    var t := DetachFrom(rows, issues, issue);
    forall k | 0 <= k < |rows|
      ensures Fits(rows[k], t)
    {
      assert Fits(rows[k], issues);
    }
  }

  lemma {:induction false} AnnounceKeeps(s: State, id: EventId, issue: IssueId, issues: nat, created: bool,
                                         reopened: bool, rows: seq<Row>)
    requires id < |s.rows| && AnnouncedOnce(s.log) && LogIsPast(s.log, s.rows, |s.issues|)
    requires |s.issues| <= issues && issue < issues && (created ==> issue == |s.issues|)
    requires |rows| == |s.rows| && rows == s.rows[id := rows[id]] && rows[id].issue.Some?
    ensures AnnouncedOnce(Announce(s.log, s.rows[id], id, issue, created, reopened))
    ensures LogIsPast(Announce(s.log, s.rows[id], id, issue, created, reopened), rows, issues)
  {
    if s.rows[id].issue.None? {
      forall k | 0 <= k < |s.log|
        ensures s.log[k].event != id && s.log[k].issue < |s.issues|
      {
        assert s.rows[s.log[k].event].issue.Some?;
      }
    }
  }

  /** The issues once the event's own has been created or touched. */
  function Prepared(s: State, id: EventId, a: Attempt): seq<Option<Issue>>
    requires id < |s.rows|
  {
    var (found, issue, created) := UpsertIssue(s.issues, s.rows[id], a.fingerprint);
    if created then found else found[issue := Some(Touched(found[issue].value))]
  }

  lemma {:induction false} PrepareKeeps(s: State, id: EventId, a: Attempt)
    requires id < |s.rows| && Inv(s)
    ensures var (found, issue, created) := UpsertIssue(s.issues, s.rows[id], a.fingerprint);
            var issues := Prepared(s, id, a);
            && |issues| == |found| >= |s.issues| && issue < |issues| && (created ==> issue == |s.issues|)
            && OneEach(issues) && AllFlagsAgree(issues) && AllFit(s.rows, issues)
            && IsIssueOf(issues[issue], s.rows[id], a.fingerprint)
  {
    UpsertKeeps(s, s.rows[id], a.fingerprint);
    var (found, issue, created) := UpsertIssue(s.issues, s.rows[id], a.fingerprint);
    if !created {
      ChangeKeeps(s.rows, found, issue, Touched(found[issue].value));
    }
  }

  lemma {:induction false} AttachKeeps(rows: seq<Row>, issues: seq<Option<Issue>>, id: EventId, issue: IssueId,
                                       a: Attempt)
    requires id < |rows| && issue < |issues| && IsIssueOf(issues[issue], rows[id], a.fingerprint)
    requires AllFit(rows, issues) && AllSound(rows)
    ensures var t := rows[id := Attached(rows[id], issue, a)];
            AllFit(t, issues) && AllSound(t)
  {
  }

  /** The log is still of the past when rows keep their issues and the table of issues grows. */
  lemma {:induction false} LogStaysPast(log: seq<Announcement>, rows: seq<Row>, after: seq<Row>, issues: nat, more: nat)
    requires LogIsPast(log, rows, issues) && |after| >= |rows| && more >= issues
    requires forall k :: 0 <= k < |rows| && rows[k].issue.Some? ==> after[k].issue.Some?
    ensures LogIsPast(log, after, more)
  {
  }

  lemma {:induction false} GroupKeepsInv(s: State, id: EventId, a: Attempt)
    requires id < |s.rows| && Inv(s)
    ensures Inv(Group(s, id, a).0)
  {
    var r := s.rows[id];
    var (found, issue, created) := UpsertIssue(s.issues, r, a.fingerprint);
    if a.failure != AtUpsert && (created || a.failure != AtTouch) {
      PrepareKeeps(s, id, a);
      var issues := Prepared(s, id, a);
      LogStaysPast(s.log, s.rows, s.rows, |s.issues|, |issues|);
      if !((HasFacets(r) && a.failure == AtFacets) || a.failure == AtAttach) {
        var rows := s.rows[id := Attached(r, issue, a)];
        AttachKeeps(s.rows, issues, id, issue, a);
        LogStaysPast(s.log, s.rows, rows, |s.issues|, |issues|);
        AnnounceKeeps(s, id, issue, |issues|, created, !created && Reopened(found[issue].value), rows);
        if r.issue.Some? {
          DetachKeeps(rows, issues, r.issue.value);
        }
      }
    }
  }

  lemma {:induction false} HandleKeepsInv(s: State, id: EventId, a: Attempt)
    requires id < |s.rows| && Inv(s)
    ensures Inv(Handle(s, id, a).0)
  {
    GroupKeepsInv(s, id, a);
    var (t, ok) := Group(s, id, a);
    if !ok && !a.markFails {
      RowKeeps(t, id, Failed(t.rows[id]));
    }
  }

  predicate SameIdentity(a: Row, b: Row)
  {
    a.org == b.org && a.project == b.project && a.fingerprint == b.fingerprint && a.issue == b.issue
  }

  /** A row may change in anything but its issue and what identifies that. */
  lemma {:induction false} RowKeeps(s: State, id: EventId, r: Row)
    requires id < |s.rows| && Inv(s) && Sound(r)
    requires SameIdentity(r, s.rows[id])
    ensures Inv(s.(rows := s.rows[id := r]))
  {
    assert Fits(s.rows[id], s.issues);
    LogStaysPast(s.log, s.rows, s.rows[id := r], |s.issues|, |s.issues|);
  }

  lemma {:induction false} HandleAllKeepsInv(s: State, ids: seq<EventId>, attempts: Attempts)
    requires (forall k :: 0 <= k < |ids| ==> ids[k] < |s.rows|) && Inv(s)
    ensures Inv(HandleAll(s, ids, attempts).0)
    decreases |ids|
  {
    if ids != [] {
      HandleKeepsInv(s, ids[0], attempts(ids[0]));
      HandleKeepsOthers(s, ids[0], attempts(ids[0]));
      var (t, stop) := Handle(s, ids[0], attempts(ids[0]));
      if !stop {
        HandleAllKeepsInv(t, ids[1..], attempts);
      }
    }
  }

  /** The same, for every row at once. */
  lemma {:induction false} RowsKeep(s: State, rows: seq<Row>)
    requires Inv(s) && |rows| == |s.rows| && AllSound(rows)
    requires forall k :: 0 <= k < |rows| ==> SameIdentity(rows[k], s.rows[k])
    ensures Inv(s.(rows := rows))
  {
    forall k | 0 <= k < |rows|
      ensures Fits(rows[k], s.issues)
    {
      assert Fits(s.rows[k], s.issues);
    }
    LogStaysPast(s.log, s.rows, rows, |s.issues|, |s.issues|);
  }

  lemma {:induction false} ClaimKeepsInv(s: State, limit: nat)
    requires Inv(s)
    ensures Inv(s.(rows := Claim(s.rows, limit, 0).0))
  {
    var rows := Claim(s.rows, limit, 0).0;
    ClaimTakes(s.rows, limit, 0);
    forall k | 0 <= k < |rows|
      ensures rows[k] == s.rows[k]
              || (Claimable(s.rows[k]) && rows[k] == s.rows[k].(attempts := s.rows[k].attempts + 1))
    {
      ClaimCounts(s.rows, limit, 0, k);
    }
    RowsKeep(s, rows);
  }

  lemma {:induction false} StepKeepsInv(s: State, op: Op)
    requires Inv(s)
    ensures Inv(Step(s, op))
  {
    match op
    case Ingest(_, _, _, _) =>
      LogStaysPast(s.log, s.rows, s.rows + [Arrived(op)], |s.issues|, |s.issues|);
    case Process(limit, world) =>
      ClaimKeepsInv(s, limit);
      ClaimTakes(s.rows, limit, 0);
      var (rows, taken) := Claim(s.rows, limit, 0);
      OnlyTaken(taken, InSomeOrder(taken, world.order), |rows|);
      HandleAllKeepsInv(s.(rows := rows), InSomeOrder(taken, world.order), world.attempts);
    case Triage(issue, status) =>
      if issue < |s.issues| && s.issues[issue].Some? {
        assert FlagsAgree(s.issues[issue].value);
        ChangeKeeps(s.rows, s.issues, issue, Triaged(s.issues[issue].value, status));
      }
    case Regroup(release) =>
      RequeueKeepsSound(s.rows, release);
      RowsKeep(s, RequeueAll(s.rows, release));
    case AgeOut(issues) =>
      AgeOutKeeps(s.rows, s.issues, issues);
  }

  lemma {:induction false} AgeOutKeeps(rows: seq<Row>, issues: seq<Option<Issue>>, aged: set<IssueId>)
    requires OneEach(issues) && AllFlagsAgree(issues) && AllFit(rows, issues)
    ensures var t := AgedOut(rows, issues, aged); OneEach(t) && AllFlagsAgree(t) && AllFit(rows, t)
  {
    var t := AgedOut(rows, issues, aged);
    forall k | 0 <= k < |rows|
      ensures Fits(rows[k], t)
    {
      assert Fits(rows[k], issues);
      assert rows[k].issue.Some? ==> HasEvents(rows, rows[k].issue.value);
    }
  }

  lemma {:induction false} RequeueKeepsSound(rows: seq<Row>, release: string)
    requires AllSound(rows)
    ensures AllSound(RequeueAll(rows, release))
  {
    forall k | 0 <= k < |rows|
      ensures Sound(RequeueAll(rows, release)[k])
    {
      assert Sound(rows[k]);
    }
  }

  lemma {:induction false} RunKeepsInv(s: State, ops: seq<Op>)
    requires Inv(s)
    ensures Inv(Run(s, ops))
    decreases |ops|
  {
    if ops != [] {
      StepKeepsInv(s, ops[0]);
      RunKeepsInv(Step(s, ops[0]), ops[1..]);
    }
  }

  /** In every run from empty tables: one issue per fingerprint and scope, each event on
      the issue that its own fingerprint names, none done with but by being attached or
      out of attempts; no event announced twice, no issue opened twice. */
  lemma {:induction false} EveryRunKeepsInv(ops: seq<Op>)
    ensures Inv(Run(EMPTY, ops))
  {
    RunKeepsInv(EMPTY, ops);
  }

  // ---------------------------------------------------------------------------
  // The queue drains

  function Left(r: Row): nat { if Claimable(r) then MAX_ATTEMPTS - r.attempts else 0 }

  /** Attempts left in the whole queue. */
  function Remaining(rows: seq<Row>): nat
  {
    if rows == [] then 0 else Left(rows[0]) + Remaining(rows[1..])
  }

  lemma {:induction false} RemainingAfterUpdate(rows: seq<Row>, i: nat, r: Row)
    requires i < |rows|
    ensures Remaining(rows[i := r]) == Remaining(rows) - Left(rows[i]) + Left(r)
    decreases |rows|
  {
    if i == 0 {
      assert rows[i := r][1..] == rows[1..];
    } else {
      assert rows[i := r][1..] == rows[1..][i - 1 := r];
      RemainingAfterUpdate(rows[1..], i - 1, r);
    }
  }

  /** Every event taken costs the queue one attempt. */
  lemma {:induction false} ClaimSpends(rows: seq<Row>, limit: nat, base: nat)
    ensures Remaining(Claim(rows, limit, base).0) + |Claim(rows, limit, base).1| == Remaining(rows)
    decreases |rows|
  {
    if rows != [] {
      ClaimSpends(rows[1..], if Claimable(rows[0]) && limit > 0 then limit - 1 else limit, base + 1);
    }
  }

  /** Handling an event gives none back, whatever fails. */
  lemma {:induction false} HandleSpends(s: State, id: EventId, a: Attempt)
    requires id < |s.rows| && !s.rows[id].processed
    ensures Remaining(Handle(s, id, a).0.rows) <= Remaining(s.rows)
  {
    var t := Handle(s, id, a).0;
    HandleKeepsOthers(s, id, a);
    RemainingAfterUpdate(s.rows, id, t.rows[id]);
  }

  ghost predicate AllWaiting(rows: seq<Row>, ids: seq<EventId>)
  {
    && (forall k :: 0 <= k < |ids| ==> ids[k] < |rows| && !rows[ids[k]].processed)
    && (forall j, k :: 0 <= j < k < |ids| ==> ids[j] != ids[k])
  }

  lemma {:induction false} RestStillWaits(s: State, ids: seq<EventId>, a: Attempt)
    requires ids != [] && AllWaiting(s.rows, ids)
    ensures AllWaiting(Handle(s, ids[0], a).0.rows, ids[1..])
  {
    HandleKeepsOthers(s, ids[0], a);
  }

  lemma {:induction false} HandleAllSpends(s: State, ids: seq<EventId>, attempts: Attempts)
    requires AllWaiting(s.rows, ids)
    ensures Remaining(HandleAll(s, ids, attempts).0.rows) <= Remaining(s.rows)
    decreases |ids|
  {
    if ids != [] {
      HandleSpends(s, ids[0], attempts(ids[0]));
      RestStillWaits(s, ids, attempts(ids[0]));
      var (t, stop) := Handle(s, ids[0], attempts(ids[0]));
      if !stop {
        HandleAllSpends(t, ids[1..], attempts);
      }
    }
  }

  lemma {:induction false} ClaimedWait(rows: seq<Row>, limit: nat, ids: seq<EventId>)
    requires IsReordering(Claim(rows, limit, 0).1, ids)
    ensures AllWaiting(Claim(rows, limit, 0).0, ids)
  {
    var (claimed, taken) := Claim(rows, limit, 0);
    ClaimTakes(rows, limit, 0);
    forall k | 0 <= k < |ids|
      ensures ids[k] < |claimed| && !claimed[ids[k]].processed
    {
      assert ids[k] in taken;
      ClaimCounts(rows, limit, 0, ids[k]);
    }
  }

  /** A batch takes at least as many attempts from the queue as it takes events, whatever
      fails and wherever it stops; and it takes none only from an empty queue. */
  lemma {:induction false} BatchSpends(s: State, limit: nat, w: World)
    ensures var (t, ids, _) := Batch(s, limit, w);
            && Remaining(t.rows) + |ids| <= Remaining(s.rows)
            && (limit > 0 && ids == [] ==> Remaining(s.rows) == 0)
  {
    ClaimTakes(s.rows, limit, 0);
    var (rows, taken) := Claim(s.rows, limit, 0);
    var ids := InSomeOrder(taken, w.order);
    ClaimSpends(s.rows, limit, 0);
    ClaimedWait(s.rows, limit, ids);
    HandleAllSpends(s.(rows := rows), ids, w.attempts);
    if limit > 0 && ids == [] {
      forall i | 0 <= i < |s.rows|
        ensures !Claimable(s.rows[i])
      {
        if Claimable(s.rows[i]) {
          ClaimTakesAll(s.rows, limit, 0, i);
        }
      }
      NothingLeft(s.rows);
    }
  }

  lemma {:induction false} NothingLeft(rows: seq<Row>)
    ensures Remaining(rows) == 0 <==> forall i :: 0 <= i < |rows| ==> !Claimable(rows[i])
    decreases |rows|
  {
    if rows != [] {
      NothingLeft(rows[1..]);
      assert forall i :: 0 < i < |rows| ==> rows[i] == rows[1..][i - 1];
    }
  }

  function Batches(s: State, limit: nat, all: seq<World>): State
    decreases |all|
  {
    if all == [] then s else Batches(Batch(s, limit, all[0]).0, limit, all[1..])
  }

  lemma {:induction false} BatchesSpend(s: State, limit: nat, all: seq<World>)
    requires limit > 0 && Inv(s)
    ensures Remaining(Batches(s, limit, all).rows) <= (
              if |all| <= Remaining(s.rows) then Remaining(s.rows) - |all| else 0)
    ensures Inv(Batches(s, limit, all)) && |Batches(s, limit, all).rows| == |s.rows|
    decreases |all|
  {
    if all != [] {
      BatchSpends(s, limit, all[0]);
      StepKeepsInv(s, Process(limit, all[0]));
      BatchKeepsRows(s, limit, all[0]);
      BatchesSpend(Batch(s, limit, all[0]).0, limit, all[1..]);
    }
  }

  lemma {:induction false} HandleAllKeepsRows(s: State, ids: seq<EventId>, attempts: Attempts)
    requires forall k :: 0 <= k < |ids| ==> ids[k] < |s.rows|
    ensures |HandleAll(s, ids, attempts).0.rows| == |s.rows|
    decreases |ids|
  {
    if ids != [] {
      HandleKeepsOthers(s, ids[0], attempts(ids[0]));
      var (t, stop) := Handle(s, ids[0], attempts(ids[0]));
      if !stop {
        HandleAllKeepsRows(t, ids[1..], attempts);
      }
    }
  }

  lemma {:induction false} BatchKeepsRows(s: State, limit: nat, w: World)
    ensures |Batch(s, limit, w).0.rows| == |s.rows|
  {
    ClaimTakes(s.rows, limit, 0);
    var (rows, taken) := Claim(s.rows, limit, 0);
    OnlyTaken(taken, InSomeOrder(taken, w.order), |rows|);
    HandleAllKeepsRows(s.(rows := rows), InSomeOrder(taken, w.order), w.attempts);
  }

  /** With nothing new arriving, as many batches as there are attempts left empty the
      queue, whatever fails: every event is then on its issue or out of attempts. */
  lemma {:induction false} QueueDrains(s: State, limit: nat, all: seq<World>)
    requires Inv(s) && limit > 0 && |all| >= Remaining(s.rows)
    ensures var t := Batches(s, limit, all);
            forall k :: 0 <= k < |t.rows| ==>
              !Claimable(t.rows[k])
              && (t.rows[k].attempts == MAX_ATTEMPTS
                  || (t.rows[k].issue.Some? && t.rows[k].issue.value < |t.issues|
                      && IsIssueOf(t.issues[t.rows[k].issue.value], t.rows[k], t.rows[k].fingerprint)))
  {
    BatchesSpend(s, limit, all);
    var t := Batches(s, limit, all);
    NothingLeft(t.rows);
    forall k | 0 <= k < |t.rows|
      ensures !Claimable(t.rows[k]) && Sound(t.rows[k]) && Fits(t.rows[k], t.issues)
    {
    }
  }
}
