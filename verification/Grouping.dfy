/** The worker that groups client errors into issues
    (business/domain/clienterrorbus/clienterrorbus.go, over the statements of
    stores/clienterrordb/clienterrordb.go).

    The two tables are sequences: a row's position is its id, rows are in the order they
    were received, and a deleted issue leaves a gap. A log keeps what was announced. What
    an event's stack gives in the maps of the moment, and which store call fails, are
    arguments of each attempt. */
module Grouping {
  import opened Basics

  const MAX_ATTEMPTS: nat := 3
  const RESOLVED_VERSION: nat := 2

  type EventId = nat
  type IssueId = nat

  datatype Status = Unresolved | Resolved | Ignored

  datatype Row = Row(org: Option<nat>, project: Option<nat>, user: Option<nat>, release: string,
                     fingerprint: string, version: nat, issue: Option<IssueId>, processed: bool, attempts: nat)

  /** resolved says whether resolved_at is set. */
  datatype Issue = Issue(org: Option<nat>, project: Option<nat>, fingerprint: string, status: Status,
                         regressed: bool, resolved: bool)

  datatype Announcement =
    | Opened(issue: IssueId, event: EventId)
    | Regressed(issue: IssueId, event: EventId)

  datatype State = State(rows: seq<Row>, issues: seq<Option<Issue>>, log: seq<Announcement>)

  datatype Failure = NoFailure | AtUpsert | AtTouch | AtFacets | AtAttach | AtDetach

  /** One attempt to group an event: the fingerprint its stack has now and the version of
      that, the store call that fails, and whether recording the failure fails as well. */
  datatype Attempt = Attempt(fingerprint: string, version: nat, failure: Failure, markFails: bool)

  // ---------------------------------------------------------------------------
  // The store

  /** The three cases of the lookup by fingerprint. */
  predicate InScope(i: Issue, org: Option<nat>, project: Option<nat>)
  {
    if project.Some? then i.project == project
    else if org.Some? then i.project.None? && i.org == org
    else i.project.None? && i.org.None?
  }

  predicate IsIssueOf(i: Option<Issue>, r: Row, fingerprint: string)
  {
    i.Some? && i.value.fingerprint == fingerprint && InScope(i.value, r.org, r.project)
  }

  function FindIssue(issues: seq<Option<Issue>>, r: Row, fingerprint: string): (found: Option<IssueId>)
    ensures found.Some? ==> found.value < |issues| && IsIssueOf(issues[found.value], r, fingerprint)
    ensures found.None? ==> forall i :: 0 <= i < |issues| ==> !IsIssueOf(issues[i], r, fingerprint)
  {
    if issues == [] then None
    else if IsIssueOf(issues[|issues| - 1], r, fingerprint) then Some(|issues| - 1)
    else FindIssue(issues[..|issues| - 1], r, fingerprint)
  }

  function NewIssue(r: Row, fingerprint: string): Issue
  {
    Issue(r.org, r.project, fingerprint, Unresolved, false, false)
  }

  /** UpsertIssue: the issues, the one of the fingerprint, and whether it is new. */
  function UpsertIssue(issues: seq<Option<Issue>>, r: Row, fingerprint: string): (seq<Option<Issue>>, IssueId, bool)
  {
    match FindIssue(issues, r, fingerprint)
    case Some(i) => (issues, i, false)
    case None => (issues + [Some(NewIssue(r, fingerprint))], |issues|, true)
  }

  /** TouchIssue, on the row: a resolved issue is unresolved and flagged. */
  function Touched(i: Issue): Issue
  {
    if i.status == Resolved then i.(status := Unresolved, regressed := true, resolved := false) else i
  }

  /** What TouchIssue returns, read from the row it wrote. */
  predicate Reopened(i: Issue) { Touched(i).regressed && !Touched(i).resolved }

  function Attached(r: Row, issue: IssueId, a: Attempt): Row
  {
    r.(issue := Some(issue), fingerprint := a.fingerprint, version := a.version, processed := true)
  }

  predicate HasEvents(rows: seq<Row>, issue: IssueId)
  {
    exists k :: 0 <= k < |rows| && rows[k].issue == Some(issue)
  }

  /** DetachFromIssue: an issue without events is deleted. */
  function DetachFrom(rows: seq<Row>, issues: seq<Option<Issue>>, issue: IssueId): seq<Option<Issue>>
  {
    if issue < |issues| && !HasEvents(rows, issue) then issues[issue := None] else issues
  }

  /** MarkFailed, on the row. */
  function Failed(r: Row): Row { r.(processed := r.attempts >= MAX_ATTEMPTS) }

  predicate Claimable(r: Row) { !r.processed && r.attempts < MAX_ATTEMPTS }

  /** ClaimUnprocessed on rows whose ids start at base: the rows, and the ids taken. */
  function Claim(rows: seq<Row>, limit: nat, base: nat): (r: (seq<Row>, seq<EventId>))
    ensures |r.0| == |rows|
    decreases |rows|
  {
    if rows == [] then ([], [])
    else if Claimable(rows[0]) && limit > 0 then
      var rest := Claim(rows[1..], limit - 1, base + 1);
      ([rows[0].(attempts := rows[0].attempts + 1)] + rest.0, [base] + rest.1)
    else
      var rest := Claim(rows[1..], limit, base + 1);
      ([rows[0]] + rest.0, rest.1)
  }

  /** MarkReleaseForRegroup, on a row. */
  function Requeued(r: Row, release: string): Row
  {
    if r.release == release && r.version < RESOLVED_VERSION && r.processed then r.(processed := false, attempts := 0)
    else r
  }

  function RequeueAll(rows: seq<Row>, release: string): (r: seq<Row>)
    ensures |r| == |rows| && forall k :: 0 <= k < |rows| ==> r[k] == Requeued(rows[k], release)
  {
    seq(|rows|, k requires 0 <= k < |rows| => Requeued(rows[k], release))
  }

  /** The retention job on issues: of those it finds old, the ones without events go. */
  function AgedOut(rows: seq<Row>, issues: seq<Option<Issue>>, aged: set<IssueId>): (r: seq<Option<Issue>>)
    ensures |r| == |issues|
    ensures forall i :: 0 <= i < |issues| ==> r[i] == if i in aged && !HasEvents(rows, i) then None else issues[i]
  {
    seq(|issues|, i requires 0 <= i < |issues| => if i in aged && !HasEvents(rows, i) then None else issues[i])
  }

  /** UpdateIssue: a change of status sets or clears resolved_at, and resolving clears the
      regressed flag. */
  function Triaged(i: Issue, status: Status): Issue
  {
    if status == i.status then i
    else if status == Resolved then i.(status := status, resolved := true, regressed := false)
    else i.(status := status, resolved := false)
  }

  // ---------------------------------------------------------------------------
  // Grouping

  predicate HasFacets(r: Row) { r.user.Some? || r.org.Some? || r.release != "" }

  function Announce(log: seq<Announcement>, r: Row, id: EventId, issue: IssueId, created: bool,
                    reopened: bool): seq<Announcement>
  {
    if r.issue.Some? then log
    else if created then log + [Opened(issue, id)]
    else if reopened then log + [Regressed(issue, id)]
    else log
  }

  /** group: the state afterwards, and whether there was no error. */
  function Group(s: State, id: EventId, a: Attempt): (State, bool)
    requires id < |s.rows|
  {
    var r := s.rows[id];
    if a.failure == AtUpsert then (s, false)
    else
      var (found, issue, created) := UpsertIssue(s.issues, r, a.fingerprint);
      if !created && a.failure == AtTouch then (s, false)
      else
        var reopened := !created && Reopened(found[issue].value);
        var issues := if created then found else found[issue := Some(Touched(found[issue].value))];
        if (HasFacets(r) && a.failure == AtFacets) || a.failure == AtAttach then (s.(issues := issues), false)
        else
          var rows := s.rows[id := Attached(r, issue, a)];
          var moved := r.issue.Some? && r.issue != Some(issue);
          if moved && a.failure == AtDetach then (State(rows, issues, s.log), false)
          else
            (State(rows, if moved then DetachFrom(rows, issues, r.issue.value) else issues,
                   Announce(s.log, r, id, issue, created, reopened)), true)
  }

  /** One event of a batch: the state afterwards, and whether the batch stops here. */
  function Handle(s: State, id: EventId, a: Attempt): (State, bool)
    requires id < |s.rows|
  {
    var (t, ok) := Group(s, id, a);
    if ok then (t, false)
    else if a.markFails then (t, true)
    else (t.(rows := t.rows[id := Failed(t.rows[id])]), false)
  }

  type Attempts = EventId -> Attempt

  function HandleAll(s: State, ids: seq<EventId>, attempts: Attempts): (State, bool)
    requires forall k :: 0 <= k < |ids| ==> ids[k] < |s.rows|
    decreases |ids|
  {
    if ids == [] then (s, false)
    else
      HandleKeepsOthers(s, ids[0], attempts(ids[0]));
      var (t, stop) := Handle(s, ids[0], attempts(ids[0]));
      if stop then (t, true) else HandleAll(t, ids[1..], attempts)
  }

  predicate IsReordering(a: seq<EventId>, b: seq<EventId>)
  {
    && |a| == |b|
    && (forall j, k :: 0 <= j < k < |b| ==> b[j] != b[k])
    && (forall k :: 0 <= k < |a| ==> a[k] in b) && (forall k :: 0 <= k < |b| ==> b[k] in a)
  }

  /** What happens to a batch: its attempts, and the order in which the claim returns its
      rows, which the statement leaves open. */
  datatype World = World(attempts: Attempts, order: seq<EventId> -> seq<EventId>)

  function InSomeOrder(ids: seq<EventId>, order: seq<EventId> -> seq<EventId>): (r: seq<EventId>)
    requires forall j, k :: 0 <= j < k < |ids| ==> ids[j] < ids[k]
    ensures IsReordering(ids, r)
  {
    if IsReordering(ids, order(ids)) then order(ids) else ids
  }

  /** ProcessBatch: the state afterwards, the events taken, and whether it stopped. */
  function Batch(s: State, limit: nat, w: World): (State, seq<EventId>, bool)
  {
    ClaimTakes(s.rows, limit, 0);
    var (rows, claimed) := Claim(s.rows, limit, 0);
    var ids := InSomeOrder(claimed, w.order);
    OnlyTaken(claimed, ids, |s.rows|);
    var (t, stop) := HandleAll(s.(rows := rows), ids, w.attempts);
    (t, ids, stop)
  }

  lemma {:induction false} OnlyTaken(claimed: seq<EventId>, ids: seq<EventId>, n: nat)
    requires IsReordering(claimed, ids) && forall k :: 0 <= k < |claimed| ==> claimed[k] < n
    ensures forall k :: 0 <= k < |ids| ==> ids[k] < n
  {
    forall k | 0 <= k < |ids|
      ensures ids[k] < n
    {
      assert ids[k] in claimed;
    }
  }

  /** Only the row of the event changes. */
  lemma {:induction false} HandleKeepsOthers(s: State, id: EventId, a: Attempt)
    requires id < |s.rows|
    ensures var t := Handle(s, id, a).0;
            |t.rows| == |s.rows| && t.rows == s.rows[id := t.rows[id]]
  {
  }

  /** What a claim takes: claimable rows only, each once, oldest first. */
  lemma {:induction false} ClaimTakes(rows: seq<Row>, limit: nat, base: nat)
    ensures var ids := Claim(rows, limit, base).1;
            && |ids| <= limit
            && (forall k :: 0 <= k < |ids| ==> base <= ids[k] < base + |rows| && Claimable(rows[ids[k] - base]))
            && (forall j, k :: 0 <= j < k < |ids| ==> ids[j] < ids[k])
    decreases |rows|
  {
    if rows != [] {
      var more := Claimable(rows[0]) && limit > 0;
      var rest := Claim(rows[1..], if more then limit - 1 else limit, base + 1).1;
      ClaimTakes(rows[1..], if more then limit - 1 else limit, base + 1);
      assert forall k :: 0 <= k < |rest| ==> rows[1..][rest[k] - (base + 1)] == rows[rest[k] - base];
    }
  }

  /** A row that could have been taken is left behind only for older ones, and only when
      the claim takes as many as it may. */
  lemma {:induction false} ClaimTakesOldest(rows: seq<Row>, limit: nat, base: nat, i: nat)
    requires i < |rows| && Claimable(rows[i]) && base + i !in Claim(rows, limit, base).1
    ensures var ids := Claim(rows, limit, base).1;
            |ids| == limit && forall k :: 0 <= k < |ids| ==> ids[k] < base + i
    decreases |rows|
  {
    if limit > 0 && i > 0 {
      var more := Claimable(rows[0]);
      var rest := Claim(rows[1..], if more then limit - 1 else limit, base + 1).1;
      assert base + 1 + (i - 1) !in rest;
      ClaimTakesOldest(rows[1..], if more then limit - 1 else limit, base + 1, i - 1);
    } else if limit == 0 {
      NoneOfNone(rows, base);
    }
  }

  lemma {:induction false} NoneOfNone(rows: seq<Row>, base: nat)
    ensures Claim(rows, 0, base).1 == []
    decreases |rows|
  {
    if rows != [] {
      NoneOfNone(rows[1..], base + 1);
    }
  }

  /** A claim counts an attempt of every row it takes, and changes nothing else. */
  lemma {:induction false} ClaimCounts(rows: seq<Row>, limit: nat, base: nat, i: nat)
    requires i < |rows|
    ensures var (claimed, ids) := Claim(rows, limit, base);
            claimed[i] == if base + i in ids then rows[i].(attempts := rows[i].attempts + 1) else rows[i]
    decreases |rows|
  {
    var left := if Claimable(rows[0]) && limit > 0 then limit - 1 else limit;
    var (later, rest) := Claim(rows[1..], left, base + 1);
    ClaimTakes(rows[1..], left, base + 1);
    ClaimSplits(rows, limit, base);
    if i > 0 {
      ClaimCounts(rows[1..], left, base + 1, i - 1);
      assert base + i in rest <==> base + 1 + (i - 1) in rest;
    } else {
      assert base !in rest;
    }
  }

  lemma {:induction false} ClaimSplits(rows: seq<Row>, limit: nat, base: nat)
    requires rows != []
    ensures var taken := Claimable(rows[0]) && limit > 0;
            var (claimed, ids) := Claim(rows, limit, base);
            var (later, rest) := Claim(rows[1..], if taken then limit - 1 else limit, base + 1);
            && claimed[0] == (if taken then rows[0].(attempts := rows[0].attempts + 1) else rows[0])
            && claimed[1..] == later
            && (forall k :: k in ids <==> k in rest || (taken && k == base))
  {
  }

  /** A claim that takes fewer rows than it may leaves none. */
  lemma {:induction false} ClaimTakesAll(rows: seq<Row>, limit: nat, base: nat, i: nat)
    requires i < |rows| && Claimable(rows[i]) && |Claim(rows, limit, base).1| < limit
    ensures base + i in Claim(rows, limit, base).1
    decreases |rows|
  {
    if i > 0 {
      var more := Claimable(rows[0]) && limit > 0;
      ClaimTakesAll(rows[1..], if more then limit - 1 else limit, base + 1, i - 1);
    }
  }

  // ---------------------------------------------------------------------------
  // The worker

  class Worker {
    var rows: seq<Row>
    var issues: seq<Option<Issue>>
    var log: seq<Announcement>

    constructor ()
      ensures Value() == State([], [], [])
    {
      rows, issues, log := [], [], [];
    }

    function Value(): State
      reads this
    {
      State(rows, issues, log)
    }

    method TouchIssue(issue: IssueId) returns (reopened: bool)
      requires issue < |issues| && issues[issue].Some?
      modifies this`issues
      ensures issues == old(issues)[issue := Some(Touched(old(issues)[issue].value))]
      ensures reopened == Reopened(old(issues)[issue].value)
    {
      var i := issues[issue].value;
      if i.status == Resolved {
        i := i.(status := Unresolved, regressed := true, resolved := false);
      }
      issues := issues[issue := Some(i)];
      return i.regressed && !i.resolved;
    }

    method DetachFromIssue(issue: IssueId)
      modifies this`issues
      ensures issues == DetachFrom(rows, old(issues), issue)
    {
      if issue < |issues| && !HasEvents(rows, issue) {
        issues := issues[issue := None];
      }
    }

    method GroupEvent(id: EventId, a: Attempt) returns (ok: bool)
      requires id < |rows|
      modifies this
      ensures (Value(), ok) == old(Group(Value(), id, a))
    {
      var e := rows[id];
      var regrouped := e.issue.Some?;
      if a.failure == AtUpsert {
        return false;
      }
      var (found, issue, created) := UpsertIssue(issues, e, a.fingerprint);
      issues := found;
      var reopened := false;
      if !created {
        if a.failure == AtTouch {
          return false;
        }
        reopened := TouchIssue(issue);
      }
      if HasFacets(e) && a.failure == AtFacets {
        return false;
      }
      if a.failure == AtAttach {
        return false;
      }
      rows := rows[id := Attached(e, issue, a)];
      if regrouped && e.issue.value != issue {
        if a.failure == AtDetach {
          return false;
        }
        DetachFromIssue(e.issue.value);
      }
      if !regrouped {
        if created {
          log := log + [Opened(issue, id)];
        } else if reopened {
          log := log + [Regressed(issue, id)];
        }
      }
      return true;
    }

    /** The loop over claimed events: it goes on after a failure that could be recorded. */
    method HandleEach(ids: seq<EventId>, attempts: Attempts) returns (failed: bool)
      requires forall k :: 0 <= k < |ids| ==> ids[k] < |rows|
      modifies this
      ensures (Value(), failed) == old(HandleAll(Value(), ids, attempts))
    {
      ghost var all := HandleAll(Value(), ids, attempts);
      for k := 0 to |ids|
        invariant |rows| == |old(rows)| && HandleAll(Value(), ids[k..], attempts) == all
      {
        assert ids[k..][0] == ids[k] && ids[k..][1..] == ids[k + 1..];
        HandleKeepsOthers(Value(), ids[k], attempts(ids[k]));
        var ok := GroupEvent(ids[k], attempts(ids[k]));
        if !ok {
          if attempts(ids[k]).markFails {
            return true;
          }
          rows := rows[ids[k] := Failed(rows[ids[k]])];
        }
      }
      return false;
    }

    method ProcessBatch(limit: nat, w: World) returns (handled: nat, failed: bool)
      modifies this
      ensures var (t, ids, stop) := old(Batch(Value(), limit, w));
              Value() == t && failed == stop && handled == if stop then 0 else |ids|
    {
      ClaimTakes(rows, limit, 0);
      var (claimed, taken) := Claim(rows, limit, 0);
      rows := claimed;
      var ids := InSomeOrder(taken, w.order);
      OnlyTaken(taken, ids, |rows|);
      failed := HandleEach(ids, w.attempts);
      handled := if failed then 0 else |ids|;
    }

    method MarkReleaseForRegroup(release: string)
      modifies this`rows
      ensures rows == RequeueAll(old(rows), release)
    {
      rows := RequeueAll(rows, release);
    }

    method UpdateIssue(issue: IssueId, status: Status)
      requires issue < |issues| && issues[issue].Some?
      modifies this`issues
      ensures issues == old(issues)[issue := Some(Triaged(old(issues)[issue].value, status))]
    {
      var i := issues[issue].value;
      if status != i.status {
        if status == Resolved {
          i := i.(resolved := true, regressed := false);
        } else {
          i := i.(resolved := false);
        }
      }
      issues := issues[issue := Some(i.(status := status))];
    }
  }
}
