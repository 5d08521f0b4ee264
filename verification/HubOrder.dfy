/** The order in which a subscriber of the hub gets the broadcasts of its project.

    Each ingest request broadcasts on its own, so broadcasts overlap, and an offer that
    was delayed arrives behind a newer one. The main result is the exact condition, per
    subscriber and in every state, under which that can no longer happen. */
module HubOrder {
  import opened Basics
  import opened Hub

  predicate Pending(s: HubState, b: nat, id: SubId)
  {
    b < |s.sent| && id in s.sent[b].pending
  }

  /** Every broadcast still to reach the subscriber is newer than all it has. */
  ghost predicate NoneLate(s: HubState, id: SubId)
    requires id < |s.subs|
  {
    forall b: nat, x: nat | Pending(s, b, id) && x in Given(s.subs[id]) :: x < b
  }

  ghost predicate AtMostOne(s: HubState, id: SubId)
  {
    forall a: nat, b: nat | Pending(s, a, id) && Pending(s, b, id) :: a == b
  }

  /** The subscriber has room for n more frames, or a writer that can make it. */
  predicate CanTake(sub: Sub, n: nat) { sub.writing || |sub.queue| + n <= SEND_BUFFER }

  /** What can be checked before the next step: no broadcast is late for a subscriber that
      can take a frame, and no two are pending for one that can take two. */
  ghost predicate OrderIsSafe(s: HubState, id: SubId)
    requires id < |s.subs|
  {
    && (CanTake(s.subs[id], 1) ==> NoneLate(s, id))
    && (CanTake(s.subs[id], 2) ==> AtMostOne(s, id))
  }

  predicate NoSnapshot(steps: seq<Step>)
  {
    forall k :: 0 <= k < |steps| ==> !steps[k].Snapshot?
  }

  // ---------------------------------------------------------------------------
  // Runs

  lemma {:induction false} Prepend(s: HubState, step: Step, rest: seq<Step>)
    requires Enabled(s, step) && Run(Next(s, step), rest)
    ensures Run(s, [step] + rest) && After(s, [step] + rest) == After(Next(s, step), rest)
  {
    assert ([step] + rest)[1..] == rest;
  }

  lemma {:induction false} Append(s: HubState, a: seq<Step>, b: seq<Step>)
    requires Run(s, a) && Run(After(s, a), b)
    ensures Run(s, a + b) && After(s, a + b) == After(After(s, a), b)
    decreases |a|
  {
    if a == [] {
      assert a + b == b;
    } else {
      assert (a + b)[0] == a[0] && (a + b)[1..] == a[1..] + b;
      Append(Next(s, a[0]), a[1..], b);
    }
  }

  // ---------------------------------------------------------------------------
  // Safe states stay safe

  /** A step of another party leaves a subscriber and what is pending for it alone. */
  lemma {:induction false} OthersLeaveAlone(s: HubState, step: Step, id: SubId)
    requires Enabled(s, step) && !step.Snapshot? && id < |s.subs|
    requires step.Subscribe? || step.Unsubscribe? || step.id != id
    ensures var s' := Next(s, step);
            id < |s'.subs| && s'.subs[id] == s.subs[id] && forall b: nat :: Pending(s', b, id) <==> Pending(s, b, id)
  {
  }

  lemma {:induction false} OfferKeepsSafe(s: HubState, step: Step, id: SubId)
    requires Inv(s) && Enabled(s, step) && step.Offer? && step.id == id
    requires Increasing(Given(s.subs[id])) && OrderIsSafe(s, id)
    ensures var s' := Next(s, step); Increasing(Given(s'.subs[id])) && OrderIsSafe(s', id)
  {
    var s' := Next(s, step);
    assert forall b: nat :: Pending(s', b, id) <==> Pending(s, b, id) && b != step.frame;
    if step.taken {
      assert Given(s'.subs[id]) == Given(s.subs[id]) + [step.frame];
      assert CanTake(s.subs[id], 1) && Pending(s, step.frame, id);
      AddedLast(Given(s.subs[id]), step.frame);
    }
  }

  lemma {:induction false} AddedLast(given: seq<nat>, b: nat)
    requires Increasing(given) && forall x | x in given :: x < b
    ensures Increasing(given + [b])
  {
    assert forall i :: 0 <= i < |given| ==> given[i] in given;
  }

  lemma {:induction false} WriterKeepsSafe(s: HubState, step: Step, id: SubId)
    requires Inv(s) && Enabled(s, step)
    requires (step.Stop? || step.TakeFrame? || step.WriteFrame? || step.Exit?) && step.id == id
    requires Increasing(Given(s.subs[id])) && OrderIsSafe(s, id)
    ensures var s' := Next(s, step); Increasing(Given(s'.subs[id])) && OrderIsSafe(s', id)
  {
    var s' := Next(s, step);
    assert forall b: nat :: Pending(s', b, id) <==> Pending(s, b, id);
    assert s'.subs[id] == NextSub(s.subs[id], step);
    WriterThins(s.subs[id], step);
    ThinnedKeeps(Given(s.subs[id]), Given(s'.subs[id]));
    WriterMakesNoRoomAtTheEnd(s.subs[id], step);
  }

  /** Room appears only while there is a writer. */
  lemma {:induction false} WriterMakesNoRoomAtTheEnd(sub: Sub, step: Step)
    requires step.Stop? || step.TakeFrame? || step.WriteFrame? || step.Exit?
    requires step.TakeFrame? ==> sub.writing && sub.hand.None? && sub.queue != []
    requires step.WriteFrame? ==> sub.writing && sub.hand.Some?
    ensures forall n :: CanTake(NextSub(sub, step), n) ==> CanTake(sub, n)
  {
  }

  lemma {:induction false} StepKeepsSafe(s: HubState, step: Step, id: SubId)
    requires Inv(s) && Enabled(s, step) && !step.Snapshot? && id < |s.subs|
    requires Increasing(Given(s.subs[id])) && OrderIsSafe(s, id)
    ensures var s' := Next(s, step); id < |s'.subs| && Increasing(Given(s'.subs[id])) && OrderIsSafe(s', id)
  {
    if step.Subscribe? || step.Unsubscribe? || step.id != id {
      OthersLeaveAlone(s, step, id);
    } else if step.Offer? {
      OfferKeepsSafe(s, step, id);
    } else {
      WriterKeepsSafe(s, step, id);
    }
  }

  lemma {:induction false} RunKeepsSafe(s: HubState, steps: seq<Step>, id: SubId)
    requires Inv(s) && Run(s, steps) && NoSnapshot(steps) && id < |s.subs|
    requires Increasing(Given(s.subs[id])) && OrderIsSafe(s, id)
    ensures var t := After(s, steps); id < |t.subs| && Increasing(Given(t.subs[id]))
    decreases |steps|
  {
    if steps != [] {
      StepKeepsSafe(s, steps[0], id);
      StepKeepsInv(s, steps[0]);
      RunKeepsSafe(Next(s, steps[0]), steps[1..], id);
    }
  }

  // ---------------------------------------------------------------------------
  // Unsafe states can break

  /** The writer drains the queue until there is room for n frames. */
  lemma {:induction false} MakeRoom(s: HubState, id: SubId, n: nat) returns (steps: seq<Step>)
    requires Inv(s) && id < |s.subs| && CanTake(s.subs[id], n) && n <= SEND_BUFFER
    ensures Run(s, steps) && NoSnapshot(steps)
    ensures var t := After(s, steps);
            && Inv(t) && t.sent == s.sent && |t.subs| == |s.subs|
            && Given(t.subs[id]) == Given(s.subs[id]) && |t.subs[id].queue| + n <= SEND_BUFFER
    decreases |s.subs[id].queue|, s.subs[id].hand.Some?
  {
    if |s.subs[id].queue| + n <= SEND_BUFFER {
      steps := [];
    } else {
      var step := if s.subs[id].hand.Some? then WriteFrame(id, true) else TakeFrame(id);
      WriterMovesFrames(s.subs[id]);
      StepKeepsInv(s, step);
      var rest := MakeRoom(Next(s, step), id, n);
      Prepend(s, step, rest);
      steps := [step] + rest;
    }
  }

  lemma {:induction false} OfferIt(s: HubState, b: nat, id: SubId)
    requires Inv(s) && id < |s.subs| && Pending(s, b, id) && |s.subs[id].queue| < SEND_BUFFER
    ensures Enabled(s, Offer(b, id, true))
    ensures var t := Next(s, Offer(b, id, true));
            && Inv(t) && |t.subs| == |s.subs| && Given(t.subs[id]) == Given(s.subs[id]) + [b]
            && |t.subs[id].queue| == |s.subs[id].queue| + 1
            && forall a: nat | a != b :: Pending(s, a, id) ==> Pending(t, a, id)
  {
    var step := Offer(b, id, true);
    StepKeepsInv(s, step);
    assert Given(Next(s, step).subs[id]) == Given(s.subs[id]) + [b];
  }

  /** A broadcast that is late is delivered behind a newer one. */
  lemma {:induction false} LateOneBreaks(s: HubState, b: nat, x: nat, id: SubId) returns (steps: seq<Step>)
    requires Inv(s) && id < |s.subs| && Pending(s, b, id) && x in Given(s.subs[id]) && b <= x
    requires CanTake(s.subs[id], 1)
    ensures Run(s, steps) && NoSnapshot(steps) && id < |After(s, steps).subs|
    ensures !Increasing(Given(After(s, steps).subs[id]))
  {
    var drain := MakeRoom(s, id, 1);
    var t := After(s, drain);
    OfferIt(t, b, id);
    Prepend(t, Offer(b, id, true), []);
    Append(s, drain, [Offer(b, id, true)] + []);
    steps := drain + ([Offer(b, id, true)] + []);
    var given := Given(s.subs[id]) + [b];
    var k :| 0 <= k < |Given(s.subs[id])| && Given(s.subs[id])[k] == x;
    assert given[k] == x;
    assert given[|given| - 1] == b;
  }

  /** Overlap is what order is lost to: when two broadcasts are pending for a subscriber
      that can take both, the later one can be delivered first. */
  lemma {:induction false} OverlapCanReorder(s: HubState, a: nat, b: nat, id: SubId) returns (steps: seq<Step>)
    requires Inv(s) && a < b && Pending(s, a, id) && Pending(s, b, id) && id < |s.subs|
    requires CanTake(s.subs[id], 2)
    ensures Run(s, steps) && NoSnapshot(steps) && |After(s, steps).subs| == |s.subs|
    ensures Given(After(s, steps).subs[id]) == Given(s.subs[id]) + [b, a]
    ensures !Increasing(Given(After(s, steps).subs[id]))
  {
    var drain := MakeRoom(s, id, 2);
    var t := After(s, drain);
    OfferIt(t, b, id);
    var u := Next(t, Offer(b, id, true));
    OfferIt(u, a, id);
    Prepend(u, Offer(a, id, true), []);
    var offers := [Offer(b, id, true)] + ([Offer(a, id, true)] + []);
    Prepend(t, Offer(b, id, true), [Offer(a, id, true)] + []);
    Append(s, drain, offers);
    steps := drain + offers;
    var given := Given(s.subs[id]) + [b, a];
    assert Given(s.subs[id]) + [b] + [a] == given;
    assert given[|given| - 2] == b && given[|given| - 1] == a;
  }

  // ---------------------------------------------------------------------------
  // Main results

  ghost predicate EndsInOrder(s: HubState, steps: seq<Step>, id: SubId)
    requires Run(s, steps)
  {
    id < |After(s, steps).subs| && Increasing(Given(After(s, steps).subs[id]))
  }

  ghost predicate StaysInOrder(s: HubState, id: SubId)
  {
    forall steps | Run(s, steps) && NoSnapshot(steps) :: EndsInOrder(s, steps, id)
  }

  /** From any state of any run in which a subscriber has its frames in order, they stay
      in order whatever happens, short of a new broadcast, if and only if the state is
      safe for it. */
  lemma {:induction false} OrderIff(s: HubState, id: SubId)
    requires Inv(s) && id < |s.subs| && Increasing(Given(s.subs[id]))
    ensures StaysInOrder(s, id) <==> OrderIsSafe(s, id)
  {
    if OrderIsSafe(s, id) {
      forall steps | Run(s, steps) && NoSnapshot(steps)
        ensures EndsInOrder(s, steps, id)
      {
        RunKeepsSafe(s, steps, id);
      }
    } else if CanTake(s.subs[id], 1) && !NoneLate(s, id) {
      var b: nat, x: nat :| Pending(s, b, id) && x in Given(s.subs[id]) && !(x < b);
      var steps := LateOneBreaks(s, b, x, id);
      assert !EndsInOrder(s, steps, id);
    } else {
      var a: nat, b: nat :| Pending(s, a, id) && Pending(s, b, id) && a != b;
      var steps := OverlapCanReorder(s, if a < b then a else b, if a < b then b else a, id);
      assert !EndsInOrder(s, steps, id);
    }
  }

  /** It does happen: one subscriber, two broadcasts, and the second offers first. */
  lemma {:induction false} OverlapIsReachable(project: Project, conn: Conn) returns (steps: seq<Step>)
    ensures Run(INITIAL, steps) && |After(INITIAL, steps).subs| == 1
    ensures Given(After(INITIAL, steps).subs[0]) == [1, 0]
  {
    var open := [Subscribe(project, conn), Snapshot(project), Snapshot(project)];
    TwoSnapshots(project, conn);
    var s := After(INITIAL, open);
    RunKeepsInv(INITIAL, open);
    var rest := OverlapCanReorder(s, 0, 1, 0);
    Append(INITIAL, open, rest);
    steps := open + rest;
  }

  lemma {:induction false} TwoSnapshots(project: Project, conn: Conn)
    ensures var open := [Subscribe(project, conn), Snapshot(project), Snapshot(project)];
            && Run(INITIAL, open)
            && var s := After(INITIAL, open);
               s.subs == [NewSub(project)] && Pending(s, 0, 0) && Pending(s, 1, 0)
  {
    var open := [Subscribe(project, conn), Snapshot(project), Snapshot(project)];
    var a := Next(INITIAL, open[0]);
    assert conn in RoomOf(a.rooms, project) && RoomOf(a.rooms, project)[conn] == 0;
    assert 0 in Members(a.rooms, project);
    var b := Next(a, open[1]);
    var c := Next(b, open[2]);
    assert open[1..] == [open[1], open[2]] && open[1..][1..] == [open[2]] && open[1..][1..][1..] == [];
    assert Run(c, []) && After(c, []) == c;
    assert Run(b, [open[2]]) && After(b, [open[2]]) == c;
    assert Run(a, open[1..]) && After(a, open[1..]) == c;
  }

  // ---------------------------------------------------------------------------
  // Broadcasts that do not overlap

  /** No broadcast that is to reach the subscriber begins while another one is pending
      for it. Broadcasts that share no subscriber, or another one, may overlap. */
  ghost predicate SerialFor(s: HubState, steps: seq<Step>, id: SubId)
    requires Run(s, steps)
    decreases |steps|
  {
    steps != [] ==>
      && (steps[0].Snapshot? && id in Members(s.rooms, steps[0].project) ==> forall b: nat :: !Pending(s, b, id))
      && SerialFor(Next(s, steps[0]), steps[1..], id)
  }

  ghost predicate InOrder(s: HubState, id: SubId)
  {
    id < |s.subs| ==> Increasing(Given(s.subs[id])) && NoneLate(s, id) && AtMostOne(s, id)
  }

  lemma {:induction false} SnapshotKeepsOrder(s: HubState, step: Step, id: SubId)
    requires Inv(s) && InOrder(s, id) && step.Snapshot?
    requires id in Members(s.rooms, step.project) ==> forall b: nat :: !Pending(s, b, id)
    ensures InOrder(Next(s, step), id)
  {
    if id < |s.subs| {
      var s' := Next(s, step);
      assert SubOk(s, id);
      forall b: nat, x: nat | Pending(s', b, id) && x in Given(s'.subs[id])
        ensures x < b
      {
        assert b < |s.sent| ==> Pending(s, b, id);
      }
      forall a: nat, b: nat | Pending(s', a, id) && Pending(s', b, id)
        ensures a == b
      {
        assert a < |s.sent| ==> Pending(s, a, id);
        assert b < |s.sent| ==> Pending(s, b, id);
      }
    }
  }

  lemma {:induction false} StepKeepsOrder(s: HubState, step: Step, id: SubId)
    requires Inv(s) && InOrder(s, id) && Enabled(s, step) && !step.Snapshot?
    ensures InOrder(Next(s, step), id)
  {
    var s' := Next(s, step);
    if id < |s.subs| {
      StepKeepsSafe(s, step, id);
      StepKeepsStrict(s, step, id);
    } else if id < |s'.subs| {
      NothingPendingForNew(s, s', id);
    }
  }

  lemma {:induction false} NothingPendingForNew(s: HubState, s': HubState, id: SubId)
    requires Inv(s) && id >= |s.subs| && s'.sent == s.sent
    ensures forall b: nat :: !Pending(s', b, id)
  {
    forall b: nat
      ensures !Pending(s', b, id)
    {
      assert Pending(s, b, id) ==> Belongs(s, id, s.sent[b].project);
    }
  }

  lemma {:induction false} StepKeepsStrict(s: HubState, step: Step, id: SubId)
    requires Inv(s) && Enabled(s, step) && !step.Snapshot? && id < |s.subs| && NoneLate(s, id) && AtMostOne(s, id)
    ensures var s' := Next(s, step); id < |s'.subs| && NoneLate(s', id) && AtMostOne(s', id)
  {
    var s' := Next(s, step);
    if step.Subscribe? || step.Unsubscribe? || step.id != id {
      OthersLeaveAlone(s, step, id);
    } else if step.Offer? {
      assert Pending(s, step.frame, id);
      assert forall b: nat :: Pending(s', b, id) <==> Pending(s, b, id) && b != step.frame;
    } else {
      assert forall b: nat :: Pending(s', b, id) <==> Pending(s, b, id);
      WriterThins(s.subs[id], step);
      ThinnedKeeps(Given(s.subs[id]), Given(s'.subs[id]));
    }
  }

  lemma {:induction false} SerialKeepsOrder(s: HubState, steps: seq<Step>, id: SubId)
    requires Inv(s) && InOrder(s, id) && Run(s, steps) && SerialFor(s, steps, id)
    ensures InOrder(After(s, steps), id)
    decreases |steps|
  {
    if steps != [] {
      var step := steps[0];
      StepKeepsInv(s, step);
      if step.Snapshot? {
        SnapshotKeepsOrder(s, step, id);
      } else {
        StepKeepsOrder(s, step, id);
      }
      SerialKeepsOrder(Next(s, step), steps[1..], id);
    }
  }

  /** When the broadcasts that reach a subscriber do not overlap, its frames are a
      subsequence of the broadcasts to its project, in the order they were made. */
  lemma {:induction false} SerialBroadcastsArriveInOrder(steps: seq<Step>, id: SubId)
    requires Run(INITIAL, steps) && SerialFor(INITIAL, steps, id) && id < |After(INITIAL, steps).subs|
    ensures var s := After(INITIAL, steps);
            && Increasing(Given(s.subs[id]))
            && forall i :: 0 <= i < |Given(s.subs[id])| ==>
                 Given(s.subs[id])[i] < |s.sent| && s.sent[Given(s.subs[id])[i]].project == s.subs[id].project
  {
    SerialKeepsOrder(INITIAL, steps, id);
    EveryInterleavingIsSafe(steps);
  }
}
