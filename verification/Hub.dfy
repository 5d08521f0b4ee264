/** The live-tail hub (app/domain/logapp/hub.go): per-project rooms of subscribers,
    each with a bounded queue and a writer of its own.

    Ingest requests, handlers and writers run concurrently, so the protocol is a state
    machine whose steps are the source's atomic actions: a locked section, one select,
    one write. A run is any interleaving of enabled steps. The two objects of the
    source that hold state under a lock, the room table and one connection's outbound
    side, are classes whose methods are proved to do what the steps do. */
module Hub {
  import opened Basics

  const SEND_BUFFER: nat := 32

  type Project = nat
  type Conn = nat

  /** Identity of one connState; a connection that subscribes again gets a new one. */
  type SubId = nat

  // ---------------------------------------------------------------------------
  // One connection's outbound side

  /** A frame is named by the number of the broadcast that carries it. */
  datatype Sub = Sub(project: Project, queue: seq<nat>, hand: Option<nat>, written: seq<nat>,
                     done: bool, closes: nat, writing: bool)

  function NewSub(project: Project): Sub
  {
    Sub(project, [], None, [], false, 0, true)
  }

  /** The select of enqueue may take the frame when there is room, and may drop it when
      the subscriber is stopped or saturated. With both, either can happen. */
  predicate MayEnqueue(sub: Sub, taken: bool)
  {
    if taken then |sub.queue| < SEND_BUFFER else sub.done || |sub.queue| >= SEND_BUFFER
  }

  function Enqueued(sub: Sub, frame: nat, taken: bool): Sub
  {
    if taken then sub.(queue := sub.queue + [frame]) else sub
  }

  /** close(done), guarded by sync.Once. */
  function Stopped(sub: Sub): Sub
  {
    if sub.done then sub else sub.(done := true, closes := sub.closes + 1)
  }

  /** The writer receives the next frame. */
  function Took(sub: Sub): Sub
    requires sub.queue != []
  {
    sub.(hand := Some(sub.queue[0]), queue := sub.queue[1..])
  }

  /** The frame in hand reaches the connection, or the writer stops and gives up. */
  function Wrote(sub: Sub, ok: bool): Sub
    requires sub.hand.Some?
  {
    if ok then sub.(written := sub.written + [sub.hand.value], hand := None)
    else Stopped(sub).(hand := None, writing := false)
  }

  /** Everything the subscriber was given, in order: written, being written, queued. */
  function Given(sub: Sub): seq<nat>
  {
    sub.written + (if sub.hand.Some? then [sub.hand.value] else []) + sub.queue
  }

  class ConnState {
    const project: Project
    var queue: seq<nat>
    var hand: Option<nat>
    var written: seq<nat>
    var done: bool
    var closes: nat
    var writing: bool

    ghost function State(): Sub
      reads this
    {
      Sub(project, queue, hand, written, done, closes, writing)
    }

    constructor (project: Project)
      ensures State() == NewSub(project)
    {
      this.project := project;
      queue, hand, written, done, closes, writing := [], None, [], false, 0, true;
    }

    /** Never blocks: one of the three cases is always open. */
    method Enqueue(frame: nat) returns (taken: bool)
      modifies this`queue
      ensures MayEnqueue(old(State()), taken) && State() == Enqueued(old(State()), frame, taken)
      ensures !taken ==> old(done) || |old(queue)| >= 32
      ensures queue == if taken then old(queue) + [frame] else old(queue)
    {
      if {
        case done =>
          taken := false;
        case |queue| < SEND_BUFFER =>
          queue := queue + [frame];
          taken := true;
        case !done && |queue| >= SEND_BUFFER =>
          taken := false;
      }
    }

    /** One turn of the writer: stopped is noticed, or a frame is received and written.
        With both possible, select may pick either. `ok` is what the write returns. */
    method WriterTurn(ok: bool) returns (received: bool)
      requires writing && hand.None? && (done || queue != [])
      modifies this
      ensures received ==> old(queue) != [] && State() == Wrote(Took(old(State())), ok)
      ensures !received ==> old(done) && State() == old(State()).(writing := false)
    {
      if {
        case done =>
          writing := false;
          received := false;
        case queue != [] =>
          hand, queue := Some(queue[0]), queue[1..];
          if ok {
            written := written + [hand.value];
          } else {
            Stop();
            writing := false;
          }
          hand := None;
          received := true;
      }
    }

    method Stop()
      modifies this`done, this`closes
      ensures State() == Stopped(old(State()))
    {
      if !done {
        done := true;
        closes := closes + 1;
      }
    }
  }

  // ---------------------------------------------------------------------------
  // The rooms

  type Rooms = map<Project, map<Conn, SubId>>

  type Room = map<Conn, SubId>

  const EMPTY_ROOM: Room := map[]

  function RoomOf(rooms: Rooms, project: Project): Room
  {
    if project in rooms then rooms[project] else EMPTY_ROOM
  }

  function Joined(rooms: Rooms, project: Project, conn: Conn, id: SubId): Rooms
  {
    var room: Room := RoomOf(rooms, project)[conn := id];
    rooms[project := room]
  }

  /** The room without the connection; an empty room is not kept. */
  function Left(rooms: Rooms, project: Project, conn: Conn): Rooms
  {
    if project !in rooms then rooms
    else
      var room := rooms[project] - {conn};
      if room == EMPTY_ROOM then rooms - {project} else rooms[project := room]
  }

  function Members(rooms: Rooms, project: Project): set<SubId>
  {
    RoomOf(rooms, project).Values
  }

  /** The connection is subscribed to the project, with this connState. */
  predicate At(rooms: Rooms, project: Project, conn: Conn, id: SubId)
  {
    project in rooms && conn in rooms[project] && rooms[project][conn] == id
  }

  class RoomTable {
    var rooms: Rooms

    constructor ()
      ensures rooms == map[]
    {
      rooms := map[];
    }

    method Subscribe(project: Project, conn: Conn, id: SubId)
      modifies this
      ensures rooms == Joined(old(rooms), project, conn, id)
      ensures forall p: Project, c: Conn, i: SubId :: At(rooms, p, c, i) <==>
                if p == project && c == conn then i == id else At(old(rooms), p, c, i)
    {
      if project !in rooms {
        rooms := rooms[project := EMPTY_ROOM];
      }
      var room: Room := rooms[project][conn := id];
      rooms := rooms[project := room];
    }

    /** Returns the connState to stop, if there was one. */
    method Unsubscribe(project: Project, conn: Conn) returns (gone: Option<SubId>)
      modifies this
      ensures rooms == Left(old(rooms), project, conn)
      ensures forall p: Project, c: Conn, i: SubId ::
                At(rooms, p, c, i) <==> (p != project || c != conn) && At(old(rooms), p, c, i)
      ensures forall i: SubId :: gone == Some(i) <==> At(old(rooms), project, conn, i)
    {
      gone := None;
      if project in rooms {
        var room: Room := rooms[project];
        if conn in room {
          gone := Some(room[conn]);
        }
        room := room - {conn};
        rooms := rooms[project := room];
        if |room| == 0 {
          rooms := rooms - {project};
        }
      }
    }

    method Snapshot(project: Project) returns (states: set<SubId>)
      ensures states == Members(rooms, project)
      ensures forall i: SubId :: i in states <==> exists c: Conn :: At(rooms, project, c, i)
    {
      if project in rooms {
        states := rooms[project].Values;
        assert forall c: Conn :: c in rooms[project] ==> At(rooms, project, c, rooms[project][c]);
      } else {
        states := {};
      }
    }
  }

  // ---------------------------------------------------------------------------
  // Grouping a batch

  datatype Log = Log(id: nat, project: Project)

  /** The logs of one project, in the order they were persisted. */
  function LogsOf(logs: seq<Log>, project: Project): seq<Log>
  {
    if logs == [] then []
    else LogsOf(logs[..|logs| - 1], project)
         + (if logs[|logs| - 1].project == project then [logs[|logs| - 1]] else [])
  }

  /** BroadcastLogs sends each project its own logs, in order, as one frame. */
  method GroupByProject(logs: seq<Log>) returns (byProject: map<Project, seq<Log>>)
    ensures forall p :: p in byProject <==> LogsOf(logs, p) != []
    ensures forall p :: p in byProject ==> byProject[p] == LogsOf(logs, p)
  {
    byProject := map[];
    for i := 0 to |logs|
      invariant forall p :: p in byProject <==> LogsOf(logs[..i], p) != []
      invariant forall p :: p in byProject ==> byProject[p] == LogsOf(logs[..i], p)
    {
      var l := logs[i];
      assert logs[..i + 1][..i] == logs[..i];
      var sofar: seq<Log> := if l.project in byProject then byProject[l.project] else [];
      byProject := byProject[l.project := sofar + [l]];
    }
    assert logs[..|logs|] == logs;
  }

  // ---------------------------------------------------------------------------
  // The protocol

  /** A broadcast in flight: the subscribers of its snapshot it has yet to offer to. */
  datatype Broadcast = Broadcast(project: Project, pending: set<SubId>)

  datatype HubState = HubState(rooms: Rooms, subs: seq<Sub>, sent: seq<Broadcast>)

  datatype Step =
    | Subscribe(project: Project, conn: Conn)
    | Unsubscribe(project: Project, conn: Conn)
    | Stop(id: SubId)
    | Snapshot(project: Project)
    | Offer(frame: nat, id: SubId, taken: bool)
    | TakeFrame(id: SubId)
    | WriteFrame(id: SubId, ok: bool)
    | Exit(id: SubId)

  const INITIAL: HubState := HubState(map[], [], [])

  predicate Enabled(s: HubState, step: Step)
  {
    match step
    case Subscribe(_, _) => true
    case Unsubscribe(_, _) => true
    case Snapshot(_) => true
    case Stop(id) => id < |s.subs|
    case Offer(b, id, taken) => b < |s.sent| && id in s.sent[b].pending && id < |s.subs|
         && MayEnqueue(s.subs[id], taken)
    case TakeFrame(id) => id < |s.subs| && s.subs[id].writing && s.subs[id].hand.None? && s.subs[id].queue != []
    case WriteFrame(id, ok) => id < |s.subs| && s.subs[id].writing && s.subs[id].hand.Some?
    case Exit(id) => id < |s.subs| && s.subs[id].writing && s.subs[id].hand.None? && s.subs[id].done
  }

  function Next(s: HubState, step: Step): HubState
    requires Enabled(s, step)
  {
    match step
    case Subscribe(project, conn) =>
      HubState(Joined(s.rooms, project, conn, |s.subs|), s.subs + [NewSub(project)], s.sent)
    case Unsubscribe(project, conn) =>
      s.(rooms := Left(s.rooms, project, conn))
    case Stop(id) =>
      s.(subs := s.subs[id := Stopped(s.subs[id])])
    case Snapshot(project) =>
      var members := Members(s.rooms, project);
      if members == {} then s else s.(sent := s.sent + [Broadcast(project, members)])
    case Offer(b, id, taken) =>
      s.(subs := s.subs[id := Enqueued(s.subs[id], b, taken)],
         sent := s.sent[b := s.sent[b].(pending := s.sent[b].pending - {id})])
    case TakeFrame(id) =>
      s.(subs := s.subs[id := Took(s.subs[id])])
    case WriteFrame(id, ok) =>
      s.(subs := s.subs[id := Wrote(s.subs[id], ok)])
    case Exit(id) =>
      s.(subs := s.subs[id := s.subs[id].(writing := false)])
  }

  ghost predicate Run(s: HubState, steps: seq<Step>)
    decreases |steps|
  {
    steps != [] ==> Enabled(s, steps[0]) && Run(Next(s, steps[0]), steps[1..])
  }

  ghost function After(s: HubState, steps: seq<Step>): HubState
    requires Run(s, steps)
    decreases |steps|
  {
    if steps == [] then s else After(Next(s, steps[0]), steps[1..])
  }

  // ---------------------------------------------------------------------------
  // Safety of every interleaving

  ghost predicate SubOk(s: HubState, id: SubId)
    requires id < |s.subs|
  {
    var sub := s.subs[id];
    && |sub.queue| <= SEND_BUFFER
    && sub.closes == (if sub.done then 1 else 0)
    && (forall i :: 0 <= i < |Given(sub)| ==>
          && Given(sub)[i] < |s.sent|
          && s.sent[Given(sub)[i]].project == sub.project
          && id !in s.sent[Given(sub)[i]].pending)
    && (forall i, j :: 0 <= i < j < |Given(sub)| ==> Given(sub)[i] != Given(sub)[j])
  }

  /** Members of a room, and subscribers a broadcast has yet to reach, belong to the project. */
  ghost predicate Belongs(s: HubState, id: SubId, project: Project)
  {
    id < |s.subs| && s.subs[id].project == project
  }

  ghost predicate Inv(s: HubState)
  {
    && (forall id :: 0 <= id < |s.subs| ==> SubOk(s, id))
    && (forall p :: p in s.rooms ==> s.rooms[p] != EMPTY_ROOM)
    && (forall p, c :: p in s.rooms && c in s.rooms[p] ==> Belongs(s, s.rooms[p][c], p))
    && (forall b, id :: 0 <= b < |s.sent| && id in s.sent[b].pending ==> Belongs(s, id, s.sent[b].project))
  }

  lemma {:induction false} SubscribeKeepsInv(s: HubState, step: Step)
    requires Inv(s) && step.Subscribe?
    ensures Inv(Next(s, step))
  {
    var s' := Next(s, step);
    forall id | 0 <= id < |s'.subs|
      ensures SubOk(s', id)
    {
      if id < |s.subs| {
        assert SubOk(s, id);
      }
    }
    assert step.conn in s'.rooms[step.project];
    forall p, c | p in s'.rooms && c in s'.rooms[p]
      ensures Belongs(s', s'.rooms[p][c], p)
    {
      if p != step.project || c != step.conn {
        assert Belongs(s, s.rooms[p][c], p);
      }
    }
    forall b, id | 0 <= b < |s.sent| && id in s.sent[b].pending
      ensures Belongs(s', id, s.sent[b].project)
    {
      assert Belongs(s, id, s.sent[b].project);
    }
  }

  lemma {:induction false} UnsubscribeKeepsInv(s: HubState, step: Step)
    requires Inv(s) && step.Unsubscribe?
    ensures Inv(Next(s, step))
  {
    var s' := Next(s, step);
    assert forall id :: 0 <= id < |s.subs| ==> SubOk(s, id) ==> SubOk(s', id);
    forall p, c | p in s'.rooms && c in s'.rooms[p]
      ensures Belongs(s', s'.rooms[p][c], p)
    {
      assert Belongs(s, s.rooms[p][c], p);
    }
    forall b, id | 0 <= b < |s.sent| && id in s.sent[b].pending
      ensures Belongs(s', id, s.sent[b].project)
    {
      assert Belongs(s, id, s.sent[b].project);
    }
  }

  lemma {:induction false} SnapshotKeepsInv(s: HubState, step: Step)
    requires Inv(s) && step.Snapshot?
    ensures Inv(Next(s, step))
  {
    var s' := Next(s, step);
    forall id | 0 <= id < |s'.subs|
      ensures SubOk(s', id)
    {
      assert SubOk(s, id);
    }
    forall p, c | p in s'.rooms && c in s'.rooms[p]
      ensures Belongs(s', s'.rooms[p][c], p)
    {
      assert Belongs(s, s.rooms[p][c], p);
    }
    forall b, id | 0 <= b < |s'.sent| && id in s'.sent[b].pending
      ensures Belongs(s', id, s'.sent[b].project)
    {
      if b < |s.sent| {
        assert Belongs(s, id, s.sent[b].project);
      } else {
        var room := RoomOf(s.rooms, step.project);
        var c :| c in room && room[c] == id;
        assert Belongs(s, s.rooms[step.project][c], step.project);
      }
    }
  }

  lemma {:induction false} OfferKeepsInv(s: HubState, step: Step)
    requires Inv(s) && step.Offer? && Enabled(s, step)
    ensures Inv(Next(s, step))
  {
    var s' := Next(s, step);
    var b, id := step.frame, step.id;
    assert Belongs(s, id, s.sent[b].project);
    forall k | 0 <= k < |s'.subs|
      ensures SubOk(s', k)
    {
      assert SubOk(s, k);
      if k == id && step.taken {
        assert Given(s'.subs[id]) == Given(s.subs[id]) + [b];
      }
    }
    RoomsStillBelong(s, s');
  }

  lemma {:induction false} RoomsStillBelong(s: HubState, s': HubState)
    requires Inv(s) && s'.rooms == s.rooms && |s'.subs| == |s.subs| && |s'.sent| == |s.sent|
    requires forall k :: 0 <= k < |s.subs| ==> s'.subs[k].project == s.subs[k].project
    requires forall b :: 0 <= b < |s.sent| ==>
               s'.sent[b].project == s.sent[b].project && s'.sent[b].pending <= s.sent[b].pending
    ensures forall p, c :: p in s'.rooms && c in s'.rooms[p] ==> Belongs(s', s'.rooms[p][c], p)
    ensures forall b, id :: 0 <= b < |s'.sent| && id in s'.sent[b].pending ==> Belongs(s', id, s'.sent[b].project)
  {
    forall p, c | p in s'.rooms && c in s'.rooms[p]
      ensures Belongs(s', s'.rooms[p][c], p)
    {
      assert Belongs(s, s.rooms[p][c], p);
    }
    forall b, id | 0 <= b < |s'.sent| && id in s'.sent[b].pending
      ensures Belongs(s', id, s'.sent[b].project)
    {
      assert Belongs(s, id, s.sent[b].project);
    }
  }

  /** A writer only moves frames along; a failed write loses the frame in hand. */
  lemma {:induction false} WriterMovesFrames(sub: Sub)
    ensures sub.hand.None? && sub.queue != [] ==> Given(Took(sub)) == Given(sub)
    ensures sub.hand.Some? ==>
              && Given(Wrote(sub, true)) == Given(sub)
              && Given(Wrote(sub, false)) == sub.written + sub.queue
              && Given(sub) == sub.written + [sub.hand.value] + sub.queue
  {
    if sub.hand.None? && sub.queue != [] {
      assert [sub.queue[0]] + sub.queue[1..] == sub.queue;
    }
  }

  ghost predicate Increasing(frames: seq<nat>)
  {
    forall i, j :: 0 <= i < j < |frames| ==> frames[i] < frames[j]
  }

  /** b is a, or a without one of its elements. */
  ghost predicate Thinned(a: seq<nat>, b: seq<nat>)
  {
    b == a || exists at :: 0 <= at < |a| && b == a[..at] + a[at + 1..]
  }

  /** The subscriber after a step of its own. */
  function NextSub(sub: Sub, step: Step): Sub
    requires step.Stop? || (step.TakeFrame? && sub.hand.None? && sub.queue != [])
             || (step.WriteFrame? && sub.hand.Some?) || step.Exit?
  {
    match step
    case Stop(_) => Stopped(sub)
    case TakeFrame(_) => Took(sub)
    case WriteFrame(_, ok) => Wrote(sub, ok)
    case Exit(_) => sub.(writing := false)
  }

  lemma {:induction false} WriterThins(sub: Sub, step: Step)
    requires step.Stop? || (step.TakeFrame? && sub.hand.None? && sub.queue != [])
             || (step.WriteFrame? && sub.hand.Some?) || step.Exit?
    ensures Thinned(Given(sub), Given(NextSub(sub, step)))
    ensures NextSub(sub, step).project == sub.project && |NextSub(sub, step).queue| <= |sub.queue|
  {
    WriterMovesFrames(sub);
    if step.WriteFrame? && !step.ok {
      var a, at := Given(sub), |sub.written|;
      assert a[..at] + a[at + 1..] == sub.written + sub.queue;
    }
  }

  lemma {:induction false} ThinnedKeeps(a: seq<nat>, b: seq<nat>)
    requires Thinned(a, b)
    ensures forall x | x in b :: x in a
    ensures (forall i, j :: 0 <= i < j < |a| ==> a[i] != a[j]) ==> forall i, j :: 0 <= i < j < |b| ==> b[i] != b[j]
    ensures Increasing(a) ==> Increasing(b)
  {
  }

  lemma {:induction false} ThinnedSubOk(s: HubState, s': HubState, id: SubId)
    requires id < |s.subs| && SubOk(s, id) && s'.sent == s.sent && |s'.subs| == |s.subs|
    requires Thinned(Given(s.subs[id]), Given(s'.subs[id])) && s'.subs[id].project == s.subs[id].project
    requires |s'.subs[id].queue| <= |s.subs[id].queue| && s'.subs[id].closes == (if s'.subs[id].done then 1 else 0)
    ensures SubOk(s', id)
  {
    var a, b := Given(s.subs[id]), Given(s'.subs[id]);
    ThinnedKeeps(a, b);
    forall i | 0 <= i < |b|
      ensures b[i] < |s.sent| && s.sent[b[i]].project == s.subs[id].project && id !in s.sent[b[i]].pending
    {
      assert b[i] in a;
    }
  }

  lemma {:induction false} WriterStepKeepsInv(s: HubState, step: Step)
    requires Inv(s) && Enabled(s, step) && (step.Stop? || step.TakeFrame? || step.WriteFrame? || step.Exit?)
    ensures Inv(Next(s, step))
  {
    var s' := Next(s, step);
    assert s' == s.(subs := s.subs[step.id := NextSub(s.subs[step.id], step)]);
    WriterThins(s.subs[step.id], step);
    forall k | 0 <= k < |s'.subs|
      ensures SubOk(s', k)
    {
      assert SubOk(s, k);
      ThinnedSubOk(s, s', k);
    }
    RoomsStillBelong(s, s');
  }

  lemma {:induction false} StepKeepsInv(s: HubState, step: Step)
    requires Inv(s) && Enabled(s, step)
    ensures Inv(Next(s, step))
  {
    if step.Offer? {
      OfferKeepsInv(s, step);
    } else if step.Subscribe? {
      SubscribeKeepsInv(s, step);
    } else if step.Unsubscribe? {
      UnsubscribeKeepsInv(s, step);
    } else if step.Snapshot? {
      SnapshotKeepsInv(s, step);
    } else {
      WriterStepKeepsInv(s, step);
    }
  }

  lemma {:induction false} RunKeepsInv(s: HubState, steps: seq<Step>)
    requires Inv(s) && Run(s, steps)
    ensures Inv(After(s, steps))
    decreases |steps|
  {
    if steps != [] {
      StepKeepsInv(s, steps[0]);
      RunKeepsInv(Next(s, steps[0]), steps[1..]);
    }
  }

  /** In every interleaving: no queue exceeds its bound, done is closed at most once, no
      empty room is kept, and what a subscriber is given are broadcasts to its own
      project, none of them twice. */
  lemma {:induction false} EveryInterleavingIsSafe(steps: seq<Step>)
    requires Run(INITIAL, steps)
    ensures var s := After(INITIAL, steps);
            && (forall p :: p in s.rooms ==> s.rooms[p] != EMPTY_ROOM)
            && (forall id :: 0 <= id < |s.subs| ==> |s.subs[id].queue| <= 32 && s.subs[id].closes <= 1)
            && (forall id, i :: 0 <= id < |s.subs| && 0 <= i < |Given(s.subs[id])| ==>
                  && Given(s.subs[id])[i] < |s.sent|
                  && s.sent[Given(s.subs[id])[i]].project == s.subs[id].project)
            && (forall id, i, j :: 0 <= id < |s.subs| && 0 <= i < j < |Given(s.subs[id])| ==>
                  Given(s.subs[id])[i] != Given(s.subs[id])[j])
  {
    RunKeepsInv(INITIAL, steps);
    var s := After(INITIAL, steps);
    forall id | 0 <= id < |s.subs|
      ensures SubOk(s, id) && s.subs[id].closes <= 1
    {
    }
    assert forall id {:trigger s.subs[id]} :: 0 <= id < |s.subs| ==> SubOk(s, id);
  }

  // ---------------------------------------------------------------------------
  // Broadcast never waits

  /** Whatever the writers are doing, a broadcast can finish by its own steps alone:
      one offer per subscriber of its snapshot. */
  lemma {:induction false} BroadcastFinishes(s: HubState, b: nat) returns (steps: seq<Step>)
    requires Inv(s) && b < |s.sent|
    ensures |steps| == |s.sent[b].pending| && Run(s, steps)
    ensures forall i :: 0 <= i < |steps| ==> steps[i].Offer? && steps[i].frame == b
    ensures |After(s, steps).sent| == |s.sent| && After(s, steps).sent[b].pending == {}
    decreases |s.sent[b].pending|
  {
    if s.sent[b].pending == {} {
      steps := [];
    } else {
      var id :| id in s.sent[b].pending;
      assert Belongs(s, id, s.sent[b].project);
      var step := Offer(b, id, |s.subs[id].queue| < SEND_BUFFER);
      assert Enabled(s, step);
      StepKeepsInv(s, step);
      var s1 := Next(s, step);
      assert s1.sent[b].pending == s.sent[b].pending - {id};
      var rest := BroadcastFinishes(s1, b);
      steps := [step] + rest;
      assert steps[0] == step && steps[1..] == rest;
      assert forall i :: 0 < i < |steps| ==> steps[i] == rest[i - 1];
      assert Run(s, steps) && After(s, steps) == After(s1, rest);
    }
  }

  // ---------------------------------------------------------------------------
  // Leaving

  ghost predicate InSomeRoom(s: HubState, id: SubId)
  {
    exists p, c :: p in s.rooms && c in s.rooms[p] && s.rooms[p][c] == id
  }

  ghost predicate GivenBefore(s: HubState, id: SubId, n: nat)
    requires id < |s.subs|
  {
    && (forall x :: x in Given(s.subs[id]) ==> x < n)
    && (forall b :: n <= b < |s.sent| ==> id !in s.sent[b].pending)
  }

  lemma {:induction false} WriterAddsNothing(sub: Sub, step: Step, n: nat)
    requires step.Stop? || (step.TakeFrame? && sub.hand.None? && sub.queue != [])
             || (step.WriteFrame? && sub.hand.Some?) || step.Exit?
    requires forall x :: x in Given(sub) ==> x < n
    ensures forall x :: x in Given(NextSub(sub, step)) ==> x < n
  {
    WriterThins(sub, step);
    ThinnedKeeps(Given(sub), Given(NextSub(sub, step)));
  }

  lemma {:induction false} NobodyComesBack(s: HubState, step: Step, id: SubId)
    requires Enabled(s, step) && id < |s.subs| && InSomeRoom(Next(s, step), id)
    ensures InSomeRoom(s, id)
  {
    var s' := Next(s, step);
    var p, c :| p in s'.rooms && c in s'.rooms[p] && s'.rooms[p][c] == id;
    assert p in s.rooms && c in s.rooms[p] && s.rooms[p][c] == id;
  }

  lemma {:induction false} MembersAreInARoom(s: HubState, project: Project, id: SubId)
    requires id in Members(s.rooms, project)
    ensures InSomeRoom(s, id)
  {
    var c :| c in RoomOf(s.rooms, project) && RoomOf(s.rooms, project)[c] == id;
    assert project in s.rooms && c in s.rooms[project] && s.rooms[project][c] == id;
  }

  lemma {:induction false} StepAfterLeaving(s: HubState, step: Step, id: SubId, n: nat)
    requires Inv(s) && Enabled(s, step) && id < |s.subs| && !InSomeRoom(s, id) && GivenBefore(s, id, n)
    requires n <= |s.sent|
    ensures var s' := Next(s, step); id < |s'.subs| && !InSomeRoom(s', id) && GivenBefore(s', id, n) && n <= |s'.sent|
  {
    var s' := Next(s, step);
    if InSomeRoom(s', id) {
      NobodyComesBack(s, step, id);
    }
    if step.Snapshot? && id in Members(s.rooms, step.project) {
      MembersAreInARoom(s, step.project, id);
    }
    if step.Offer? && step.id == id && step.taken {
      assert Given(s'.subs[id]) == Given(s.subs[id]) + [step.frame];
    } else if (step.Stop? || step.TakeFrame? || step.WriteFrame? || step.Exit?) && step.id == id {
      assert s'.subs[id] == NextSub(s.subs[id], step);
      WriterAddsNothing(s.subs[id], step, n);
    }
  }

  /** Once a subscriber is in no room, no broadcast begun later ever reaches it. */
  lemma {:induction false} NothingAfterLeaving(s: HubState, steps: seq<Step>, id: SubId, n: nat)
    requires Inv(s) && Run(s, steps) && id < |s.subs| && !InSomeRoom(s, id) && GivenBefore(s, id, n) && n <= |s.sent|
    ensures id < |After(s, steps).subs| && GivenBefore(After(s, steps), id, n)
    decreases |steps|
  {
    if steps != [] {
      StepKeepsInv(s, steps[0]);
      StepAfterLeaving(s, steps[0], id, n);
      NothingAfterLeaving(Next(s, steps[0]), steps[1..], id, n);
    }
  }
}
