/** Where an event ends up, and which events an upload queues again
    (business/domain/clienterrorbus/clienterrorbus.go, stores/clienterrordb/clienterrordb.go),
    in terms of the rows and issues alone. */
module GroupingLaws {
  import opened Basics
  import opened Grouping
  import opened GroupingRuns
  import opened GroupingFailures

  // ---------------------------------------------------------------------------
  // Uploads

  /** The event waits to be grouped. */
  predicate Waits(r: Row) { !r.processed && r.attempts < 3 }

  /** The event was grouped, or given up, by a stack no map of this release had resolved. */
  predicate FiledTooEarly(r: Row, release: string) { r.processed && r.release == release && r.version < 2 }

  lemma {:induction false} ClaimIsShort(rows: seq<Row>, limit: nat, base: nat)
    ensures |Claim(rows, limit, base).1| <= |rows|
    decreases |rows|
  {
    if rows != [] {
      ClaimIsShort(rows[1..], if Claimable(rows[0]) && limit > 0 then limit - 1 else limit, base + 1);
    }
  }

  /** A batch with room for every row takes exactly the waiting ones. */
  lemma {:induction false} BatchTakesIff(s: State, limit: nat, w: World, id: EventId)
    requires limit > |s.rows| && id < |s.rows|
    ensures id in Batch(s, limit, w).1 <==> Waits(s.rows[id])
  {
    ClaimTakes(s.rows, limit, 0);
    ClaimIsShort(s.rows, limit, 0);
    var taken := Claim(s.rows, limit, 0).1;
    if Waits(s.rows[id]) {
      ClaimTakesAll(s.rows, limit, 0, id);
    }
    assert id in taken <==> id in InSomeOrder(taken, w.order);
  }

  /** What an upload queues again. The batch after an upload, with room for every row, takes
      an event exactly when it was waiting already, or was filed too early under the release
      of the upload: with a fingerprint from before that could be resolved. Nothing else of
      any row changes, and no issue and no announcement. */
  lemma {:induction false} UploadQueuesIff(s: State, release: string, limit: nat, w: World, id: EventId)
    requires limit > |s.rows| && id < |s.rows|
    ensures var t := Step(s, Regroup(release));
            && |t.rows| == |s.rows| && t.issues == s.issues && t.log == s.log
            && (id in Batch(t, limit, w).1 <==> Waits(s.rows[id]) || FiledTooEarly(s.rows[id], release))
            && t.rows[id] == s.rows[id].(processed := t.rows[id].processed, attempts := t.rows[id].attempts)
            && (t.rows[id] != s.rows[id] ==> FiledTooEarly(s.rows[id], release) && t.rows[id].attempts == 0)
  {
    BatchTakesIff(Step(s, Regroup(release)), limit, w, id);
  }

  ghost predicate Succeeds(w: World, version: nat)
  {
    forall id :: w.attempts(id).failure == NoFailure && w.attempts(id).version == version
  }

  /** Uploading settles. When the batch after an upload groups what it takes from resolved
      stacks, a second upload of the release finds nothing to queue. */
  lemma {:induction false} SecondUploadQueuesNothing(s: State, release: string, limit: nat, w: World, version: nat)
    requires limit > |s.rows| && Succeeds(w, version) && version >= 2
    ensures var t := Step(Step(s, Regroup(release)), Process(limit, w));
            Step(t, Regroup(release)) == t && forall k :: 0 <= k < |t.rows| ==> !Waits(t.rows[k])
  {
    var r := Step(s, Regroup(release));
    var t := Step(r, Process(limit, w));
    BatchKeepsRows(r, limit, w);
    forall k | 0 <= k < |t.rows|
      ensures !Waits(t.rows[k]) && !FiledTooEarly(t.rows[k], release)
    {
      RowAfterBatch(r, limit, w, version, k);
    }
    assert Step(t, Regroup(release)).rows == t.rows;
  }

  /** A batch without failures: taken rows carry the new version, the others are as before. */
  lemma {:induction false} RowAfterBatch(s: State, limit: nat, w: World, version: nat, k: EventId)
    requires limit > |s.rows| && Succeeds(w, version) && k < |s.rows|
    ensures var t := Batch(s, limit, w).0;
            && k < |t.rows|
            && if Waits(s.rows[k]) then t.rows[k].processed && t.rows[k].version == version else t.rows[k] == s.rows[k]
  {
    var n := FailuresStayLocal(s, limit, w);
    var ids := Batch(s, limit, w).1;
    BatchTakesIff(s, limit, w, k);
    if Waits(s.rows[k]) {
      var j :| 0 <= j < |ids| && ids[j] == k;
      assert w.attempts(ids[j]).failure == NoFailure;
    } else {
      UntakenStays(s, limit, w, k);
    }
  }

  lemma {:induction false} UntakenStays(s: State, limit: nat, w: World, k: EventId)
    requires k < |s.rows| && k !in Batch(s, limit, w).1
    ensures k < |Batch(s, limit, w).0.rows| && Batch(s, limit, w).0.rows[k] == s.rows[k]
  {
    ClaimTakes(s.rows, limit, 0);
    var (rows, taken) := Claim(s.rows, limit, 0);
    var ids := InSomeOrder(taken, w.order);
    OnlyTaken(taken, ids, |rows|);
    assert k !in taken;
    ClaimCounts(s.rows, limit, 0, k);
    HandleAllLeavesOthers(s.(rows := rows), ids, w.attempts, k);
  }

  // ---------------------------------------------------------------------------
  // One event

  /** The issue is the one of this fingerprint in the scope of the event. */
  predicate IsFor(i: Option<Issue>, r: Row, fingerprint: string)
  {
    && i.Some? && i.value.fingerprint == fingerprint
    && ScopeOf(i.value.org, i.value.project) == ScopeOf(r.org, r.project)
  }

  /** The issue as a new event leaves it: a resolved one is open again and flagged. */
  predicate OpenedAgain(was: Issue, now: Issue)
  {
    if was.status == Resolved then
      now == Issue(was.org, was.project, was.fingerprint, Unresolved, true, false)
    else now == was
  }

  predicate IsBrandNew(i: Issue, r: Row, fingerprint: string)
  {
    i == Issue(r.org, r.project, fingerprint, Unresolved, false, false)
  }

  /** The event itself: on the issue, with the fingerprint and the version of its stack, and
      done. */
  predicate Filed(was: Row, now: Row, issue: IssueId, a: Attempt)
  {
    && now.issue == Some(issue) && now.fingerprint == a.fingerprint && now.version == a.version && now.processed
    && (now.org, now.project, now.user, now.release, now.attempts)
    == (was.org, was.project, was.user, was.release, was.attempts)
  }

  ghost predicate OnlyEventOf(rows: seq<Row>, id: EventId, issue: IssueId)
  {
    && id < |rows| && rows[id].issue == Some(issue)
    && forall k :: 0 <= k < |rows| && k != id ==> rows[k].issue != Some(issue)
  }

  lemma {:induction false} LookupIsIsFor(i: Option<Issue>, r: Row, fingerprint: string)
    ensures IsIssueOf(i, r, fingerprint) <==> IsFor(i, r, fingerprint)
  {
  }

  lemma {:induction false} HasEventsIff(rows: seq<Row>, id: EventId, r: Row, left: IssueId)
    requires id < |rows| && rows[id].issue == Some(left) && r.issue != Some(left)
    ensures HasEvents(rows[id := r], left) <==> !OnlyEventOf(rows, id, left)
  {
    var after := rows[id := r];
    if k :| 0 <= k < |rows| && k != id && rows[k].issue == Some(left) {
      assert after[k].issue == Some(left);
    }
  }

  /** Where an event ends up. When its calls work, an event is filed under the issue of its
      fingerprint and scope: the one there is, which a resolved one makes open again, or a new
      one at the end. The issue it leaves goes exactly when it was its only event. No other
      event and no other issue changes. It is announced exactly when it was on no issue
      before, as opening a new issue or as bringing one back that is flagged. */
  lemma {:induction false} WhereAnEventEndsUp(s: State, id: EventId, a: Attempt) returns (issue: IssueId)
    requires Inv(s) && id < |s.rows| && a.failure == NoFailure
    ensures var t := Group(s, id, a).0;
            && |t.rows| == |s.rows| && Filed(s.rows[id], t.rows[id], issue, a)
            && (forall k :: 0 <= k < |s.rows| && k != id ==> t.rows[k] == s.rows[k])
    ensures var t := Group(s, id, a).0;
            && issue < |t.issues| && t.issues[issue].Some?
            && (if issue < |s.issues| then
                  && IsFor(s.issues[issue], s.rows[id], a.fingerprint) && |t.issues| == |s.issues|
                  && OpenedAgain(s.issues[issue].value, t.issues[issue].value)
                else
                  && issue == |s.issues| && |t.issues| == |s.issues| + 1
                  && (forall i :: 0 <= i < |s.issues| ==> !IsFor(s.issues[i], s.rows[id], a.fingerprint))
                  && IsBrandNew(t.issues[issue].value, s.rows[id], a.fingerprint))
    ensures var t := Group(s, id, a).0;
            forall i :: 0 <= i < |s.issues| && i != issue ==>
              t.issues[i] == if OnlyEventOf(s.rows, id, i) then None else s.issues[i]
    ensures var t := Group(s, id, a).0;
            t.log == if s.rows[id].issue.Some? then s.log
                     else if issue == |s.issues| then s.log + [Opened(issue, id)]
                     else if t.issues[issue].value.regressed then s.log + [Regressed(issue, id)]
                     else s.log
  {
    var r := s.rows[id];
    var created := UpsertIssue(s.issues, r, a.fingerprint).2;
    issue := UpsertIssue(s.issues, r, a.fingerprint).1;
    LookupDecides(s.issues, r, a.fingerprint, issue, created);
    if r.issue.Some? && r.issue.value != issue {
      HasEventsIff(s.rows, id, Attached(r, issue, a), r.issue.value);
      assert r.issue.value < |s.issues| by { assert Fits(r, s.issues); }
    }
    TouchedIs(s, issue, created);
  }

  lemma {:induction false} LookupDecides(issues: seq<Option<Issue>>, r: Row, fingerprint: string, issue: IssueId,
                                         created: bool)
    requires UpsertIssue(issues, r, fingerprint).1 == issue && UpsertIssue(issues, r, fingerprint).2 == created
    ensures if created then
              issue == |issues| && forall i :: 0 <= i < |issues| ==> !IsFor(issues[i], r, fingerprint)
            else issue < |issues| && IsFor(issues[issue], r, fingerprint)
  {
    forall i | 0 <= i < |issues|
      ensures IsIssueOf(issues[i], r, fingerprint) <==> IsFor(issues[i], r, fingerprint)
    {
      LookupIsIsFor(issues[i], r, fingerprint);
    }
  }

  lemma {:induction false} TouchedIs(s: State, issue: IssueId, created: bool)
    requires Inv(s) && (!created ==> issue < |s.issues| && s.issues[issue].Some?)
    ensures !created ==>
              && OpenedAgain(s.issues[issue].value, Touched(s.issues[issue].value))
              && (Reopened(s.issues[issue].value) <==> Touched(s.issues[issue].value).regressed)
  {
    assert !created ==> FlagsAgree(s.issues[issue].value);
  }
}
