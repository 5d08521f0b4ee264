/** Who is in a room of the hub, and whom a broadcast finds there (app/domain/logapp/hub.go),
    told from the subscribes and unsubscribes of a run alone. */
module HubRooms {
  import opened Basics
  import opened Hub
  import opened HubOrder
  import opened HubLoss

  // ---------------------------------------------------------------------------
  // One step

  /** The step subscribes the connection to the project or takes it out. */
  predicate Touches(step: Step, project: Project, conn: Conn)
  {
    (step.Subscribe? || step.Unsubscribe?) && step.project == project && step.conn == conn
  }

  lemma {:induction false} OnlyOneJoins(rooms: Rooms, p: Project, c: Conn, got: SubId, project: Project, conn: Conn,
                                        id: SubId)
    ensures At(Joined(rooms, p, c, got), project, conn, id) <==>
            if p == project && c == conn then id == got else At(rooms, project, conn, id)
  {
    var after := Joined(rooms, p, c, got);
    if project == p {
      assert after[p] == RoomOf(rooms, p)[c := got];
    } else {
      assert project in after <==> project in rooms;
    }
  }

  lemma {:induction false} OnlyOneLeaves(rooms: Rooms, p: Project, c: Conn, project: Project, conn: Conn, id: SubId)
    ensures At(Left(rooms, p, c), project, conn, id) <==> (p != project || c != conn) && At(rooms, project, conn, id)
  {
    var after := Left(rooms, p, c);
    if project == p && p in rooms {
      var room: Room := rooms[p] - {c};
      if room == EMPTY_ROOM {
        assert conn !in room;
      } else {
        assert after[p] == room;
      }
    } else {
      assert project in after <==> project in rooms;
    }
  }

  /** A subscribe puts its connection, and an unsubscribe takes it; every other pair of a
      project and a connection is as it was before, with the same connState. */
  lemma {:induction false} OnlyOnePairMoves(s: HubState, step: Step, project: Project, conn: Conn, id: SubId)
    requires Enabled(s, step)
    ensures At(Next(s, step).rooms, project, conn, id) <==>
            if !Touches(step, project, conn) then At(s.rooms, project, conn, id)
            else step.Subscribe? && id == |s.subs|
  {
    if step.Subscribe? {
      OnlyOneJoins(s.rooms, step.project, step.conn, |s.subs|, project, conn, id);
    } else if step.Unsubscribe? {
      OnlyOneLeaves(s.rooms, step.project, step.conn, project, conn, id);
    } else {
      assert Next(s, step).rooms == s.rooms;
    }
  }

  // ---------------------------------------------------------------------------
  // Runs

  /** How many subscribes there were; the next one gets this number. */
  ghost function Subscribes(steps: seq<Step>): nat
    decreases |steps|
  {
    if steps == [] then 0
    else Subscribes(steps[..|steps| - 1]) + (if steps[|steps| - 1].Subscribe? then 1 else 0)
  }

  /** The last subscribe or unsubscribe of the connection at the project is the i-th step, a
      subscribe, and id is the number it got. */
  ghost predicate SatDown(steps: seq<Step>, project: Project, conn: Conn, id: SubId, i: nat)
  {
    && i < |steps| && steps[i] == Subscribe(project, conn) && id == Subscribes(steps[..i])
    && forall j :: i < j < |steps| ==> !Touches(steps[j], project, conn)
  }

  ghost predicate Sits(steps: seq<Step>, project: Project, conn: Conn, id: SubId)
  {
    exists i :: SatDown(steps, project, conn, id, i)
  }

  lemma {:induction false} Split(s: HubState, a: seq<Step>, b: seq<Step>)
    requires Run(s, a + b)
    ensures Run(s, a) && Run(After(s, a), b) && After(s, a + b) == After(After(s, a), b)
    ensures Audiences(s, a + b) == Audiences(s, a) + Audiences(After(s, a), b)
    decreases |a|
  {
    if a == [] {
      assert a + b == b;
      assert Audiences(s, a) + Audiences(After(s, a), b) == Audiences(s, b);
    } else {
      assert (a + b)[0] == a[0] && (a + b)[1..] == a[1..] + b;
      var s1 := Next(s, a[0]);
      Split(s1, a[1..], b);
      Associative(AudienceOf(s, a[0]), Audiences(s1, a[1..]), Audiences(After(s1, a[1..]), b));
    }
  }

  lemma {:induction false} LastStep(s: HubState, step: Step)
    requires Run(s, [step])
    ensures Enabled(s, step) && After(s, [step]) == Next(s, step)
    ensures Audiences(s, [step]) == AudienceOf(s, step)
  {
    assert [step][1..] == [];
    assert After(s, [step]) == After(Next(s, step), []);
    assert Audiences(s, [step]) == AudienceOf(s, step) + Audiences(Next(s, step), []);
  }

  lemma {:induction false} SubscribesCount(steps: seq<Step>)
    requires Run(INITIAL, steps)
    ensures |After(INITIAL, steps).subs| == Subscribes(steps)
    decreases |steps|
  {
    if steps != [] {
      var n := |steps| - 1;
      assert steps == steps[..n] + [steps[n]];
      Split(INITIAL, steps[..n], [steps[n]]);
      LastStep(After(INITIAL, steps[..n]), steps[n]);
      SubscribesCount(steps[..n]);
    }
  }

  lemma {:induction false} SitsAfterStep(steps: seq<Step>, step: Step, project: Project, conn: Conn, id: SubId)
    ensures Sits(steps + [step], project, conn, id) <==>
            if Touches(step, project, conn) then step.Subscribe? && id == Subscribes(steps)
            else Sits(steps, project, conn, id)
  {
    var all, n := steps + [step], |steps|;
    assert all[..n] == steps && all[n] == step;
    assert forall i :: 0 <= i < n ==> all[i] == steps[i] && all[..i] == steps[..i];
    if Touches(step, project, conn) {
      if i :| SatDown(all, project, conn, id, i) {
        assert i == n;
      }
      if step.Subscribe? && id == Subscribes(steps) {
        assert SatDown(all, project, conn, id, n);
      }
    } else {
      if i :| SatDown(all, project, conn, id, i) {
        assert i != n;
        assert SatDown(steps, project, conn, id, i);
      }
      if i :| SatDown(steps, project, conn, id, i) {
        assert SatDown(all, project, conn, id, i);
      }
    }
  }

  /** Who is in the rooms. After every run, a connection is in the room of a project with a
      connState exactly when its last subscribe or unsubscribe there was the subscribe that
      made the connState. */
  lemma {:induction false} InTheRoomIff(steps: seq<Step>, project: Project, conn: Conn, id: SubId)
    requires Run(INITIAL, steps)
    ensures At(After(INITIAL, steps).rooms, project, conn, id) <==> Sits(steps, project, conn, id)
    decreases |steps|
  {
    if steps != [] {
      var n := |steps| - 1;
      var before, step := steps[..n], steps[n];
      assert steps == before + [step];
      Split(INITIAL, before, [step]);
      LastStep(After(INITIAL, before), step);
      InTheRoomIff(before, project, conn, id);
      SubscribesCount(before);
      OnlyOnePairMoves(After(INITIAL, before), step, project, conn, id);
      SitsAfterStep(before, step, project, conn, id);
    }
  }

  lemma {:induction false} MembersSit(steps: seq<Step>, project: Project, id: SubId)
    requires Run(INITIAL, steps)
    ensures id in Members(After(INITIAL, steps).rooms, project) <==> exists c :: Sits(steps, project, c, id)
  {
    var rooms := After(INITIAL, steps).rooms;
    if c :| c in RoomOf(rooms, project) && RoomOf(rooms, project)[c] == id {
      assert At(rooms, project, c, id);
      InTheRoomIff(steps, project, c, id);
    }
    if c :| Sits(steps, project, c, id) {
      InTheRoomIff(steps, project, c, id);
    }
  }

  /** Whom a broadcast finds. After every run, a snapshot of a project finds exactly the
      subscribers whose own subscribe was the last thing their connection did there. It
      starts a broadcast to all of them, unless there is none. */
  lemma {:induction false} SnapshotFindsIff(steps: seq<Step>, project: Project) returns (found: set<SubId>)
    requires Run(INITIAL, steps)
    ensures forall id :: id in found <==> exists c :: Sits(steps, project, c, id)
    ensures var s := After(INITIAL, steps);
            Next(s, Snapshot(project)) ==
            if found == {} then s else s.(sent := s.sent + [Broadcast(project, found)])
  {
    found := Members(After(INITIAL, steps).rooms, project);
    forall id
      ensures id in found <==> exists c :: Sits(steps, project, c, id)
    {
      MembersSit(steps, project, id);
    }
  }

  // ---------------------------------------------------------------------------
  // Whoever stays misses nothing

  lemma {:induction false} StillSits(steps: seq<Step>, i: nat, k: nat, project: Project, conn: Conn)
    requires i < k <= |steps| && steps[i] == Subscribe(project, conn)
    requires forall j :: i < j < k ==> !Touches(steps[j], project, conn)
    ensures Sits(steps[..k], project, conn, Subscribes(steps[..i]))
  {
    assert steps[..k][..i] == steps[..i];
    assert SatDown(steps[..k], project, conn, Subscribes(steps[..i]), i);
  }

  /** The snapshot at step k is broadcast number b, and it is for everybody it found. */
  lemma {:induction false} SnapshotIsFor(steps: seq<Step>, k: nat, project: Project, id: SubId) returns (b: nat)
    requires Run(INITIAL, steps) && k < |steps| && steps[k] == Snapshot(project)
    requires exists c :: Sits(steps[..k], project, c, id)
    ensures Run(INITIAL, steps[..k]) && b == |After(INITIAL, steps[..k]).sent|
    ensures WasFor(Audiences(INITIAL, steps), b, id)
  {
    var a, rest := steps[..k], steps[k + 1..];
    assert steps == a + ([steps[k]] + rest);
    Split(INITIAL, a, [steps[k]] + rest);
    Split(After(INITIAL, a), [steps[k]], rest);
    LastStep(After(INITIAL, a), steps[k]);
    MembersSit(a, project, id);
    RunTells(INITIAL, a, [], id);
    assert [] + Audiences(INITIAL, a) == Audiences(INITIAL, a);
    b := |Audiences(INITIAL, a)|;
  }

  /** Whoever stays misses no snapshot. A connection subscribes at step i and neither leaves
      nor subscribes again before the snapshot of its project at step k. Then the broadcast
      of that snapshot is for it; and in a run in which no offer to it was dropped and no
      write to it failed, it ends up with it, or is still to be offered it. */
  lemma {:induction false} WhoeverStaysMissesNothing(steps: seq<Step>, i: nat, k: nat, project: Project, conn: Conn)
    returns (b: nat)
    requires Run(INITIAL, steps) && i < k < |steps|
    requires steps[i] == Subscribe(project, conn) && steps[k] == Snapshot(project)
    requires forall j :: i < j < k ==> !Touches(steps[j], project, conn)
    ensures Run(INITIAL, steps[..k]) && b == |After(INITIAL, steps[..k]).sent|
    ensures var id := Subscribes(steps[..i]);
            var s := After(INITIAL, steps);
            && WasFor(Audiences(INITIAL, steps), b, id)
            && b < |s.sent| && id < |s.subs|
            && (NoLoss(steps, id) ==> id in s.sent[b].pending || b in Given(s.subs[id]))
  {
    var id := Subscribes(steps[..i]);
    StillSits(steps, i, k, project, conn);
    b := SnapshotIsFor(steps, k, project, id);
    RunTells(INITIAL, steps, [], id);
    assert [] + Audiences(INITIAL, steps) == Audiences(INITIAL, steps);
    NothingLostIff(steps, id);
  }

  // ---------------------------------------------------------------------------
  // What a frame carries

  /** The places of the logs of a project, in the order of the batch. */
  ghost predicate PlacesOf(logs: seq<Log>, project: Project, places: seq<nat>)
  {
    && (forall i, j :: 0 <= i < j < |places| ==> places[i] < places[j])
    && forall i: nat :: i in places <==> i < |logs| && logs[i].project == project
  }

  lemma {:induction false} OneMorePlace(logs: seq<Log>, project: Project, before: seq<nat>, places: seq<nat>)
    requires logs != [] && PlacesOf(logs[..|logs| - 1], project, before)
    requires places == if logs[|logs| - 1].project == project then before + [|logs| - 1] else before
    ensures PlacesOf(logs, project, places)
  {
    var n := |logs| - 1;
    forall k | 0 <= k < |before|
      ensures before[k] < n
    {
      assert before[k] in before;
    }
    forall i: nat
      ensures i in places <==> i < |logs| && logs[i].project == project
    {
      assert i in places <==> i in before || (i == n && logs[n].project == project);
      assert i < n ==> logs[..n][i] == logs[i];
    }
  }

  /** A frame carries exactly the logs of its project, each once and in the order in which
      they were persisted. */
  lemma {:induction false} FrameCarriesItsLogs(logs: seq<Log>, project: Project) returns (places: seq<nat>)
    ensures PlacesOf(logs, project, places) && |LogsOf(logs, project)| == |places|
    ensures forall k :: 0 <= k < |places| ==> places[k] < |logs| && LogsOf(logs, project)[k] == logs[places[k]]
    decreases |logs|
  {
    places := [];
    if logs != [] {
      var n := |logs| - 1;
      var before := FrameCarriesItsLogs(logs[..n], project);
      places := if logs[n].project == project then before + [n] else before;
      OneMorePlace(logs, project, before, places);
    }
  }
}
