/** Which broadcasts a subscriber of the hub loses (app/domain/logapp/hub.go).

    A broadcast is for the subscribers its snapshot found. The main result says when one of
    them ends up with every broadcast that was for it: exactly when no offer to it was
    dropped and no write to it failed. */
module HubLoss {
  import opened Basics
  import opened Hub

  /** Whom each broadcast of a run was for, in the order they were made. */
  ghost function Audiences(s: HubState, steps: seq<Step>): seq<set<SubId>>
    requires Run(s, steps)
    decreases |steps|
  {
    if steps == [] then [] else AudienceOf(s, steps[0]) + Audiences(Next(s, steps[0]), steps[1..])
  }

  ghost function AudienceOf(s: HubState, step: Step): seq<set<SubId>>
  {
    if step.Snapshot? && Members(s.rooms, step.project) != {} then [Members(s.rooms, step.project)] else []
  }

  /** A step in which the subscriber loses a frame. */
  predicate Loses(step: Step, id: SubId)
  {
    (step.Offer? && step.id == id && !step.taken) || (step.WriteFrame? && step.id == id && !step.ok)
  }

  predicate NoLoss(steps: seq<Step>, id: SubId) { forall k :: 0 <= k < |steps| ==> !Loses(steps[k], id) }

  /** The subscriber has every broadcast that was for it, but for those still to offer. */
  ghost predicate HasAll(s: HubState, audiences: seq<set<SubId>>, id: SubId)
  {
    forall b | 0 <= b < |audiences| && b < |s.sent| && id in audiences[b] && id !in s.sent[b].pending ::
      id < |s.subs| && b in Given(s.subs[id])
  }

  ghost predicate WasFor(audiences: seq<set<SubId>>, x: nat, id: SubId) { x < |audiences| && id in audiences[x] }

  /** The broadcasts of the state are those of the run, and what is pending for a subscriber
      or was given to it was for it. */
  ghost predicate Matches(s: HubState, audiences: seq<set<SubId>>)
  {
    && |audiences| == |s.sent|
    && (forall b :: 0 <= b < |s.sent| ==> s.sent[b].pending <= audiences[b])
    && (forall id, x :: 0 <= id < |s.subs| && x in Given(s.subs[id]) ==> WasFor(audiences, x, id))
    && (forall b: nat, id: SubId :: WasFor(audiences, b, id) ==> id < |s.subs|)
  }

  // ---------------------------------------------------------------------------
  // What a step gives and takes

  lemma {:induction false} GivenAfterOffer(s: HubState, step: Step)
    requires Enabled(s, step) && step.Offer?
    ensures var s' := Next(s, step);
            var given := Given(s.subs[step.id]);
            Given(s'.subs[step.id]) == if step.taken then given + [step.frame] else given
  {
    var s' := Next(s, step);
    if step.taken {
      assert Given(s'.subs[step.id]) == Given(s.subs[step.id]) + [step.frame];
    }
  }

  /** A writer's step loses the frame in hand, if its write fails, and nothing else. */
  lemma {:induction false} GivenAfterWriter(sub: Sub, step: Step)
    requires step.Stop? || (step.TakeFrame? && sub.hand.None? && sub.queue != [])
             || (step.WriteFrame? && sub.hand.Some?) || step.Exit?
    ensures !(step.WriteFrame? && !step.ok) ==> Given(NextSub(sub, step)) == Given(sub)
    ensures step.WriteFrame? && !step.ok ==>
              && Given(sub) == sub.written + [sub.hand.value] + sub.queue
              && Given(NextSub(sub, step)) == sub.written + sub.queue
  {
    WriterMovesFrames(sub);
  }

  lemma {:induction false} StepKeepsMatch(s: HubState, step: Step, audiences: seq<set<SubId>>)
    requires Inv(s) && Enabled(s, step) && Matches(s, audiences)
    ensures Matches(Next(s, step), audiences + AudienceOf(s, step))
  {
    var s' := Next(s, step);
    var after := audiences + AudienceOf(s, step);
    if step.Snapshot? {
      MembersExist(s, step.project);
    }
    PendingWithin(s, step, audiences);
    forall id, x | 0 <= id < |s'.subs| && x in Given(s'.subs[id])
      ensures WasFor(after, x, id)
    {
      WasForIt(s, step, audiences, id, x);
    }
    forall b: nat, id: SubId | WasFor(after, b, id)
      ensures id < |s'.subs|
    {
      assert b < |audiences| ==> WasFor(audiences, b, id);
    }
  }

  lemma {:induction false} WasForIt(s: HubState, step: Step, audiences: seq<set<SubId>>, id: SubId, x: nat)
    requires Inv(s) && Enabled(s, step) && Matches(s, audiences)
    requires id < |Next(s, step).subs| && x in Given(Next(s, step).subs[id])
    ensures WasFor(audiences, x, id)
  {
    GivenComesFrom(s, step, id, x);
    if !(id < |s.subs| && x in Given(s.subs[id])) {
      assert s.sent[x].pending <= audiences[x];
    }
  }

  lemma {:induction false} PendingWithin(s: HubState, step: Step, audiences: seq<set<SubId>>)
    requires Enabled(s, step) && |audiences| == |s.sent|
    requires forall b :: 0 <= b < |s.sent| ==> s.sent[b].pending <= audiences[b]
    ensures var s', after := Next(s, step), audiences + AudienceOf(s, step);
            |after| == |s'.sent| && forall b :: 0 <= b < |s'.sent| ==> s'.sent[b].pending <= after[b]
  {
    var s', after := Next(s, step), audiences + AudienceOf(s, step);
    forall b | 0 <= b < |s'.sent|
      ensures s'.sent[b].pending <= after[b]
    {
      if b < |s.sent| {
        assert s'.sent[b].pending <= s.sent[b].pending <= audiences[b] == after[b];
      }
    }
  }

  lemma {:induction false} MembersExist(s: HubState, project: Project)
    requires Inv(s)
    ensures forall id | id in Members(s.rooms, project) :: id < |s.subs|
  {
    forall id | id in Members(s.rooms, project)
      ensures id < |s.subs|
    {
      var room := RoomOf(s.rooms, project);
      var c :| c in room && room[c] == id;
      assert Belongs(s, s.rooms[project][c], project);
    }
  }

  /** What a subscriber has after a step it had before, or was offered in it. */
  lemma {:induction false} GivenComesFrom(s: HubState, step: Step, id: SubId, x: nat)
    requires Inv(s) && Enabled(s, step) && id < |Next(s, step).subs| && x in Given(Next(s, step).subs[id])
    ensures (id < |s.subs| && x in Given(s.subs[id])) || (x < |s.sent| && id in s.sent[x].pending)
  {
    if step.Offer? && step.id == id {
      GivenAfterOffer(s, step);
    } else if (step.Stop? || step.TakeFrame? || step.WriteFrame? || step.Exit?) && step.id == id {
      var sub := s.subs[id];
      assert Next(s, step).subs[id] == NextSub(sub, step);
      GivenAfterWriter(sub, step);
      if step.WriteFrame? && !step.ok {
        InEither(sub.written, sub.hand.value, sub.queue, x);
      }
    }
  }

  lemma {:induction false} InEither(a: seq<nat>, y: nat, b: seq<nat>, x: nat)
    ensures x in a + b ==> x in a + [y] + b
    ensures x in a + [y] + b && x != y ==> x in a + b
  {
    assert x in a + b <==> x in a || x in b;
    assert x in a + [y] + b <==> x in a || x == y || x in b;
  }

  // ---------------------------------------------------------------------------
  // Nothing is lost

  /** A frame that a subscriber has is kept by a step that loses nothing. */
  lemma {:induction false} GivenStays(s: HubState, step: Step, id: SubId, x: nat)
    requires Inv(s) && Enabled(s, step) && !Loses(step, id) && id < |s.subs| && x in Given(s.subs[id])
    ensures id < |Next(s, step).subs| && x in Given(Next(s, step).subs[id])
  {
    if step.Offer? && step.id == id {
      GivenAfterOffer(s, step);
    } else if (step.Stop? || step.TakeFrame? || step.WriteFrame? || step.Exit?) && step.id == id {
      assert Next(s, step).subs[id] == NextSub(s.subs[id], step);
      GivenAfterWriter(s.subs[id], step);
    }
  }

  lemma {:induction false} StepKeepsAll(s: HubState, step: Step, audiences: seq<set<SubId>>, id: SubId)
    requires Inv(s) && Enabled(s, step) && Matches(s, audiences) && !Loses(step, id) && HasAll(s, audiences, id)
    ensures HasAll(Next(s, step), audiences + AudienceOf(s, step), id)
  {
    var s' := Next(s, step);
    var after := audiences + AudienceOf(s, step);
    StepKeepsMatch(s, step, audiences);
    forall b | 0 <= b < |after| && b < |s'.sent| && id in after[b] && id !in s'.sent[b].pending
      ensures id < |s'.subs| && b in Given(s'.subs[id])
    {
      if step.Offer? && step.id == id && step.frame == b {
        GivenAfterOffer(s, step);
      } else {
        assert b < |s.sent| && id !in s.sent[b].pending;
        GivenStays(s, step, id, b);
      }
    }
  }

  // ---------------------------------------------------------------------------
  // What is lost stays lost

  lemma {:induction false} LosingLoses(s: HubState, step: Step, audiences: seq<set<SubId>>, id: SubId)
    requires Inv(s) && Enabled(s, step) && Matches(s, audiences) && Loses(step, id)
    ensures !HasAll(Next(s, step), audiences + AudienceOf(s, step), id)
  {
    var s' := Next(s, step);
    assert audiences + AudienceOf(s, step) == audiences;
    assert SubOk(s, id);
    if step.Offer? {
      GivenAfterOffer(s, step);
      var b := step.frame;
      assert b !in Given(s.subs[id]);
      assert s.sent[b].pending <= audiences[b];
      assert id in audiences[b] && id !in s'.sent[b].pending;
    } else {
      var sub := s.subs[id];
      var x := sub.hand.value;
      assert s'.subs[id] == NextSub(sub, step);
      GivenAfterWriter(sub, step);
      NotTwice(sub.written, x, sub.queue);
      assert Given(sub)[|sub.written|] == x && x in Given(sub);
      assert WasFor(audiences, x, id);
    }
  }

  lemma {:induction false} NotTwice(a: seq<nat>, x: nat, b: seq<nat>)
    requires forall i, j :: 0 <= i < j < |a + [x] + b| ==> (a + [x] + b)[i] != (a + [x] + b)[j]
    ensures x !in a + b
  {
    var all := a + [x] + b;
    assert all[|a|] == x;
    forall k | 0 <= k < |a + b|
      ensures (a + b)[k] != x
    {
      assert (a + b)[k] == all[if k < |a| then k else k + 1];
    }
  }

  lemma {:induction false} LostStaysLost(s: HubState, step: Step, audiences: seq<set<SubId>>, id: SubId)
    requires Inv(s) && Enabled(s, step) && Matches(s, audiences) && !HasAll(s, audiences, id)
    ensures !HasAll(Next(s, step), audiences + AudienceOf(s, step), id)
  {
    var s' := Next(s, step);
    var b :| 0 <= b < |audiences| && b < |s.sent| && id in audiences[b] && id !in s.sent[b].pending
             && !(id < |s.subs| && b in Given(s.subs[id]));
    assert (audiences + AudienceOf(s, step))[b] == audiences[b];
    assert b < |s'.sent| && id !in s'.sent[b].pending;
    if id < |s'.subs| && b in Given(s'.subs[id]) {
      GivenComesFrom(s, step, id, b);
    }
  }

  // ---------------------------------------------------------------------------
  // Runs

  lemma {:induction false} RunTells(s: HubState, steps: seq<Step>, audiences: seq<set<SubId>>, id: SubId)
    requires Inv(s) && Run(s, steps) && Matches(s, audiences)
    ensures Matches(After(s, steps), audiences + Audiences(s, steps))
    ensures HasAll(After(s, steps), audiences + Audiences(s, steps), id)
       <==> HasAll(s, audiences, id) && NoLoss(steps, id)
    decreases |steps|
  {
    if steps == [] {
      assert audiences + [] == audiences;
    } else {
      var step, rest := steps[0], steps[1..];
      var after := audiences + AudienceOf(s, step);
      StepKeepsMatch(s, step, audiences);
      StepKeepsInv(s, step);
      RunTells(Next(s, step), rest, after, id);
      Associative(audiences, AudienceOf(s, step), Audiences(Next(s, step), rest));
      NoLossSplits(steps, id);
      if !HasAll(s, audiences, id) {
        LostStaysLost(s, step, audiences, id);
      } else if Loses(step, id) {
        LosingLoses(s, step, audiences, id);
      } else {
        StepKeepsAll(s, step, audiences, id);
      }
    }
  }

  lemma {:induction false} NoLossSplits(steps: seq<Step>, id: SubId)
    requires steps != []
    ensures NoLoss(steps, id) <==> !Loses(steps[0], id) && NoLoss(steps[1..], id)
  {
    assert forall k :: 0 < k < |steps| ==> steps[k] == steps[1..][k - 1];
  }

  /** In every run, a subscriber has every finished broadcast whose snapshot found it,
      exactly once each, if and only if no offer to it was dropped and no write failed. */
  lemma {:induction false} NothingLostIff(steps: seq<Step>, id: SubId)
    requires Run(INITIAL, steps) && id < |After(INITIAL, steps).subs|
    ensures var s := After(INITIAL, steps);
            var audiences := Audiences(INITIAL, steps);
            && |audiences| == |s.sent|
            && (NoLoss(steps, id) <==>
                  forall b | 0 <= b < |s.sent| && id in audiences[b] && id !in s.sent[b].pending ::
                    b in Given(s.subs[id]))
            && (forall i, j :: 0 <= i < j < |Given(s.subs[id])| ==> Given(s.subs[id])[i] != Given(s.subs[id])[j])
            && (forall x :: x in Given(s.subs[id]) ==> x < |audiences| && id in audiences[x])
  {
    RunTells(INITIAL, steps, [], id);
    EveryInterleavingIsSafe(steps);
    assert [] + Audiences(INITIAL, steps) == Audiences(INITIAL, steps);
  }

  /** The subscriber is never full and never stopped, and its writes succeed. */
  ghost predicate KeepsUp(s: HubState, steps: seq<Step>, id: SubId)
    requires Run(s, steps)
    decreases |steps|
  {
    steps != [] ==>
      && (id < |s.subs| ==> |s.subs[id].queue| < SEND_BUFFER && !s.subs[id].done)
      && (steps[0].WriteFrame? && steps[0].id == id ==> steps[0].ok)
      && KeepsUp(Next(s, steps[0]), steps[1..], id)
  }

  /** Such a subscriber loses nothing. */
  lemma {:induction false} KeepingUpLosesNothing(s: HubState, steps: seq<Step>, id: SubId)
    requires Run(s, steps) && KeepsUp(s, steps, id)
    ensures NoLoss(steps, id)
    decreases |steps|
  {
    if steps != [] {
      KeepingUpLosesNothing(Next(s, steps[0]), steps[1..], id);
      NoLossSplits(steps, id);
    }
  }
}
