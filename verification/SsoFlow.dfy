/** The single sign-on protocol: start, callback and exchange
    (app/domain/ssoapp/ssoapp.go over the stores of app/domain/ssoapp/state.go).

    The identity provider, provisioning and token signing are one outcome per
    callback: the user they established, or none. A callback holds no lock while it talks
    to the provider, so it is two steps, with other requests in between. Random tokens are
    parameters; a run is `Fresh` when no token comes up twice, which is what 32 random
    bytes are for. */
module SsoFlow {
  import opened Basics
  import opened OneTimeStore

  const LOGIN_STATE_TTL: int := 600 * SECOND
  const SESSION_CODE_TTL: int := 60 * SECOND

  type OrgId = nat
  type UserId = nat

  /** The nonce and PKCE verifier stay on the server with the organization. */
  datatype LoginState = LoginState(org: OrgId, nonce: Token, verifier: Token)

  /** What the signed session token says. */
  datatype SessionToken = SessionToken(org: OrgId, user: UserId)

  /** What each request did. A refused callback or exchange leaves no event. */
  datatype Event =
    | Started(state: Token, org: OrgId, at: int)
    | CalledBack(state: Token, code: Token, org: OrgId, user: UserId, from: int, until: int)
    | Exchanged(code: Token, token: SessionToken, at: int)

  type CallId = nat

  /** A callback that has redeemed its state and is talking to the provider. */
  datatype Call = Call(state: Token, login: LoginState, from: int)

  datatype World = World(states: Entries<LoginState>, calls: map<CallId, Call>, sessions: Entries<SessionToken>,
                         log: seq<Event>)

  /** What a start draws from the random source. */
  datatype LoginTokens = LoginTokens(state: Token, nonce: Token, verifier: Token)

  /** One request, or one half of a callback. `available` is false when the organization
      has no usable provider; `minted` is what came from the random source, nothing when
      that failed; `rejected` marks a callback that carries an error from the provider;
      `user` is what the identity provider and provisioning established. */
  datatype Request =
    | Start(org: OrgId, available: bool, tokens: Option<LoginTokens>, now: int)
    | CallbackBegin(call: CallId, rejected: bool, state: Token, from: int)
    | CallbackEnd(call: CallId, user: Option<UserId>, minted: Option<Token>, until: int)
    | Exchange(code: Token, now: int)

  function Begin(w: World, call: CallId, rejected: bool, state: Token, from: int): World
  {
    if rejected then w
    else
      var (states, login) := Take(w.states, state, from);
      if login.None? then w.(states := states)
      else w.(states := states, calls := w.calls[call := Call(state, login.value, from)])
  }

  function End(w: World, call: CallId, user: Option<UserId>, minted: Option<Token>, until: int): World
  {
    if call !in w.calls then w
    else if user.None? || minted.None? then w.(calls := w.calls - {call})
    else
      var c := w.calls[call];
      World(w.states, w.calls - {call},
            Put(w.sessions, minted.value, SessionToken(c.login.org, user.value), SESSION_CODE_TTL, until),
            w.log + [CalledBack(c.state, minted.value, c.login.org, user.value, c.from, until)])
  }

  function Serve(w: World, r: Request): World
  {
    match r
    case Start(org, available, tokens, now) =>
      if !available || tokens.None? then w
      else
        var t := tokens.value;
        w.(states := Put(w.states, t.state, LoginState(org, t.nonce, t.verifier), LOGIN_STATE_TTL, now),
           log := w.log + [Started(t.state, org, now)])
    case CallbackBegin(call, rejected, state, from) => Begin(w, call, rejected, state, from)
    case CallbackEnd(call, user, minted, until) => End(w, call, user, minted, until)
    case Exchange(code, now) =>
      var (sessions, token) := Take(w.sessions, code, now);
      w.(sessions := sessions, log := if token.Some? then w.log + [Exchanged(code, token.value, now)] else w.log)
  }

  datatype StartResult = Redirected(state: Token) | Unavailable | NoTokens

  class SsoApp {
    const states: Store<LoginState>
    const sessions: Store<SessionToken>
    ghost var calls: map<CallId, Call>
    ghost var log: seq<Event>

    ghost predicate Valid()
    {
      && states as object != sessions as object
      && states.ttl == LOGIN_STATE_TTL && sessions.ttl == SESSION_CODE_TTL
    }

    ghost function State(): World
      reads this, states, sessions
    {
      World(states.m, calls, sessions.m, log)
    }

    constructor ()
      ensures Valid() && State() == World(map[], map[], map[], [])
      ensures fresh(states) && fresh(sessions)
    {
      states := new Store(LOGIN_STATE_TTL);
      sessions := new Store(SESSION_CODE_TTL);
      calls := map[];
      log := [];
    }

    method StartLogin(org: OrgId, available: bool, tokens: Option<LoginTokens>, now: int) returns (r: StartResult)
      requires Valid()
      modifies this, states
      ensures Valid() && State() == Serve(old(State()), Start(org, available, tokens, now))
      ensures r == if !available then Unavailable else if tokens.None? then NoTokens else Redirected(tokens.value.state)
    {
      if !available {
        return Unavailable;
      }
      if tokens.None? {
        return NoTokens;
      }
      var t := tokens.value;
      var ok := states.Add(Some(t.state), LoginState(org, t.nonce, t.verifier), now);
      log := log + [Started(t.state, org, now)];
      return Redirected(t.state);
    }

    /** The first half of a callback: whether it goes on to the provider. */
    method BeginCallback(ghost call: CallId, rejected: bool, state: Token, from: int)
      returns (login: Option<LoginState>)
      requires Valid()
      modifies this, states
      ensures Valid() && State() == Serve(old(State()), CallbackBegin(call, rejected, state, from))
      ensures login == if rejected then None else Take(old(states.m), state, from).1
    {
      if rejected {
        return None;
      }
      login := states.Consume(state, from);
      if login.Some? {
        calls := calls[call := Call(state, login.value, from)];
      }
    }

    /** The second half: the code is handed out exactly when everything worked. */
    method EndCallback(ghost call: CallId, login: LoginState, user: Option<UserId>, minted: Option<Token>, until: int)
      returns (code: Option<Token>)
      requires Valid() && call in calls && calls[call].login == login
      modifies this, sessions
      ensures Valid() && State() == Serve(old(State()), CallbackEnd(call, user, minted, until))
      ensures code == if user.Some? then minted else None
    {
      ghost var c := calls[call];
      calls := calls - {call};
      if user.None? {
        return None;
      }
      var ok := sessions.Add(minted, SessionToken(login.org, user.value), until);
      if !ok {
        return None;
      }
      log := log + [CalledBack(c.state, minted.value, login.org, user.value, c.from, until)];
      return minted;
    }

    /** A callback that nothing comes between. */
    method CompleteLogin(ghost call: CallId, rejected: bool, state: Token, from: int, user: Option<UserId>,
                         minted: Option<Token>, until: int)
      returns (code: Option<Token>)
      requires Valid() && call !in calls
      modifies this, states, sessions
      ensures Valid()
      ensures State() == End(Begin(old(State()), call, rejected, state, from), call, user, minted, until)
      ensures code == if !rejected && Take(old(states.m), state, from).1.Some? && user.Some? then minted else None
    {
      var login := BeginCallback(call, rejected, state, from);
      if login.None? {
        return None;
      }
      code := EndCallback(call, login.value, user, minted, until);
    }

    method ExchangeCode(code: Token, now: int) returns (token: Option<SessionToken>)
      requires Valid()
      modifies this, sessions
      ensures Valid() && State() == Serve(old(State()), Exchange(code, now))
      ensures token == Take(old(sessions.m), code, now).1
    {
      token := sessions.Consume(code, now);
      if token.Some? {
        log := log + [Exchanged(code, token.value, now)];
      }
    }
  }

  // ---------------------------------------------------------------------------
  // Runs

  const START: World := World(map[], map[], map[], [])

  ghost function ServeAll(w: World, requests: seq<Request>): World
    decreases |requests|
  {
    if requests == [] then w else ServeAll(Serve(w, requests[0]), requests[1..])
  }

  ghost predicate NewState(log: seq<Event>, state: Token)
  {
    forall i :: 0 <= i < |log| && log[i].Started? ==> log[i].state != state
  }

  ghost predicate NewCode(log: seq<Event>, code: Token)
  {
    forall i :: 0 <= i < |log| && log[i].CalledBack? ==> log[i].code != code
  }

  /** The tokens a request brings from the random source have not come up before, and a
      callback is not another one that is under way. */
  ghost predicate FreshTokens(w: World, r: Request)
  {
    match r
    case Start(_, _, tokens, _) => tokens.Some? ==> NewState(w.log, tokens.value.state)
    case CallbackBegin(call, _, _, _) => call !in w.calls
    case CallbackEnd(_, _, minted, _) => minted.Some? ==> NewCode(w.log, minted.value)
    case Exchange(_, _) => true
  }

  ghost predicate FreshRun(w: World, requests: seq<Request>)
    decreases |requests|
  {
    requests != [] ==> FreshTokens(w, requests[0]) && FreshRun(Serve(w, requests[0]), requests[1..])
  }

  // ---------------------------------------------------------------------------
  // Tracing an exchange back

  /** Event i is the start that callback event j redeemed. */
  ghost predicate StartOf(log: seq<Event>, i: nat, j: nat)
  {
    && i < j < |log| && log[i].Started? && log[j].CalledBack?
    && log[i].state == log[j].state && log[i].org == log[j].org
    && log[j].from <= log[i].at + LOGIN_STATE_TTL
  }

  /** Event j is the callback whose code exchange event k redeemed. */
  ghost predicate CallbackOf(log: seq<Event>, j: nat, k: nat)
  {
    && j < k < |log| && log[j].CalledBack? && log[k].Exchanged?
    && log[j].code == log[k].code && log[k].token == SessionToken(log[j].org, log[j].user)
    && log[k].at <= log[j].until + SESSION_CODE_TTL
  }

  /** No state is redeemed twice, no code handed out or exchanged twice. */
  ghost predicate NoRepeats(log: seq<Event>)
  {
    forall i, j :: 0 <= i < j < |log| ==>
      && (log[i].Started? && log[j].Started? ==> log[i].state != log[j].state)
      && (log[i].CalledBack? && log[j].CalledBack? ==> log[i].state != log[j].state && log[i].code != log[j].code)
      && (log[i].Exchanged? && log[j].Exchanged? ==> log[i].code != log[j].code)
  }

  ghost predicate Traced(log: seq<Event>)
  {
    && (forall j :: 0 <= j < |log| && log[j].CalledBack? ==> exists i :: 0 <= i < j && StartOf(log, i, j))
    && (forall k :: 0 <= k < |log| && log[k].Exchanged? ==> exists j :: 0 <= j < k && CallbackOf(log, j, k))
  }

  /** There was a start of this state, for this organization, with this deadline. */
  ghost predicate StartedWith(log: seq<Event>, state: Token, org: OrgId, deadline: int)
  {
    exists i :: 0 <= i < |log| && IsStart(log[i], state, org, deadline)
  }

  predicate IsStart(e: Event, state: Token, org: OrgId, deadline: int)
  {
    e.Started? && e.state == state && e.org == org && deadline == e.at + LOGIN_STATE_TTL
  }

  ghost predicate Unredeemed(log: seq<Event>, state: Token)
  {
    forall j :: 0 <= j < |log| && log[j].CalledBack? ==> log[j].state != state
  }

  ghost predicate CalledBackWith(log: seq<Event>, code: Token, token: SessionToken, deadline: int)
  {
    exists j :: 0 <= j < |log| && IsCallback(log[j], code, token, deadline)
  }

  predicate IsCallback(e: Event, code: Token, token: SessionToken, deadline: int)
  {
    e.CalledBack? && e.code == code && token == SessionToken(e.org, e.user) && deadline == e.until + SESSION_CODE_TTL
  }

  ghost predicate Unexchanged(log: seq<Event>, code: Token)
  {
    forall k :: 0 <= k < |log| && log[k].Exchanged? ==> log[k].code != code
  }

  /** A pending state belongs to a start in the log and has not been redeemed. */
  ghost predicate PendingState(log: seq<Event>, state: Token, e: Entry<LoginState>)
  {
    StartedWith(log, state, e.value.org, e.expiresAt) && Unredeemed(log, state)
  }

  /** So does the state of a callback under way, which redeemed it in time. */
  ghost predicate PendingCall(log: seq<Event>, c: Call)
  {
    && Unredeemed(log, c.state)
    && exists deadline :: c.from <= deadline && StartedWith(log, c.state, c.login.org, deadline)
  }

  /** A pending code belongs to a callback in the log and has not been exchanged. */
  ghost predicate PendingCode(log: seq<Event>, code: Token, e: Entry<SessionToken>)
  {
    CalledBackWith(log, code, e.value, e.expiresAt) && Unexchanged(log, code)
  }

  /** A state is in the map or with one callback, never both. */
  ghost predicate Apart(w: World)
  {
    && (forall c :: c in w.calls ==> w.calls[c].state !in w.states)
    && (forall c, d :: c in w.calls && d in w.calls && c != d ==> w.calls[c].state != w.calls[d].state)
  }

  ghost predicate Inv(w: World)
  {
    && NoRepeats(w.log) && Traced(w.log) && Apart(w)
    && (forall state :: state in w.states ==> PendingState(w.log, state, w.states[state]))
    && (forall c :: c in w.calls ==> PendingCall(w.log, w.calls[c]))
    && (forall code :: code in w.sessions ==> PendingCode(w.log, code, w.sessions[code]))
  }

  lemma {:induction false} TracedAppend(log: seq<Event>, e: Event)
    requires Traced(log)
    requires e.CalledBack? ==> exists i :: 0 <= i < |log| && StartOf(log + [e], i, |log|)
    requires e.Exchanged? ==> exists j :: 0 <= j < |log| && CallbackOf(log + [e], j, |log|)
    ensures Traced(log + [e])
  {
    var after := log + [e];
    forall j | 0 <= j < |after| && after[j].CalledBack?
      ensures exists i :: 0 <= i < j && StartOf(after, i, j)
    {
      if j < |log| {
        var i :| 0 <= i < j && StartOf(log, i, j);
        assert StartOf(after, i, j);
      }
    }
    forall k | 0 <= k < |after| && after[k].Exchanged?
      ensures exists j :: 0 <= j < k && CallbackOf(after, j, k)
    {
      if k < |log| {
        var j :| 0 <= j < k && CallbackOf(log, j, k);
        assert CallbackOf(after, j, k);
      }
    }
  }

  lemma {:induction false} StartedStays(log: seq<Event>, e: Event, state: Token, org: OrgId, deadline: int)
    requires StartedWith(log, state, org, deadline)
    ensures StartedWith(log + [e], state, org, deadline)
  {
    var i :| 0 <= i < |log| && IsStart(log[i], state, org, deadline);
    assert (log + [e])[i] == log[i];
  }

  lemma {:induction false} CalledBackStays(log: seq<Event>, e: Event, code: Token, token: SessionToken, deadline: int)
    requires CalledBackWith(log, code, token, deadline)
    ensures CalledBackWith(log + [e], code, token, deadline)
  {
    var j :| 0 <= j < |log| && IsCallback(log[j], code, token, deadline);
    assert (log + [e])[j] == log[j];
  }

  /** One more event leaves what is pending as it is, but for the state a callback redeems
      and the code an exchange takes. */
  lemma {:induction false} StateStillPending(log: seq<Event>, e: Event, state: Token, entry: Entry<LoginState>)
    requires PendingState(log, state, entry) && (e.CalledBack? ==> e.state != state)
    ensures PendingState(log + [e], state, entry)
  {
    StartedStays(log, e, state, entry.value.org, entry.expiresAt);
  }

  lemma {:induction false} CallStillPending(log: seq<Event>, e: Event, c: Call)
    requires PendingCall(log, c) && (e.CalledBack? ==> e.state != c.state)
    ensures PendingCall(log + [e], c)
  {
    var deadline :| c.from <= deadline && StartedWith(log, c.state, c.login.org, deadline);
    StartedStays(log, e, c.state, c.login.org, deadline);
  }

  lemma {:induction false} CodeStillPending(log: seq<Event>, e: Event, code: Token, entry: Entry<SessionToken>)
    requires PendingCode(log, code, entry) && (e.Exchanged? ==> e.code != code)
    ensures PendingCode(log + [e], code, entry)
  {
    CalledBackStays(log, e, code, entry.value, entry.expiresAt);
  }

  lemma {:induction false} StartKeepsInv(w: World, r: Request)
    requires Inv(w) && r.Start? && r.available && r.tokens.Some? && FreshTokens(w, r)
    ensures Inv(Serve(w, r))
  {
    var t := r.tokens.value;
    var e := Started(t.state, r.org, r.now);
    var w' := Serve(w, r);
    TracedAppend(w.log, e);
    FreshStatePending(w.log, e);
    CallsWereStarted(w, t.state);
    StartKeepsPending(w, w', e);
  }

  lemma {:induction false} StartKeepsPending(w: World, w': World, e: Event)
    requires Inv(w) && e.Started? && w'.log == w.log + [e] && w'.calls == w.calls && w'.sessions == w.sessions
    requires forall state :: state in w'.states ==>
               (state in w.states && w'.states[state] == w.states[state])
                 || PendingState(w'.log, state, w'.states[state])
    ensures forall state :: state in w'.states ==> PendingState(w'.log, state, w'.states[state])
    ensures forall c :: c in w'.calls ==> PendingCall(w'.log, w'.calls[c])
    ensures forall code :: code in w'.sessions ==> PendingCode(w'.log, code, w'.sessions[code])
  {
    forall state | state in w'.states
      ensures PendingState(w'.log, state, w'.states[state])
    {
      if state in w.states && w'.states[state] == w.states[state] {
        StateStillPending(w.log, e, state, w.states[state]);
      }
    }
    forall c | c in w'.calls
      ensures PendingCall(w'.log, w'.calls[c])
    {
      CallStillPending(w.log, e, w.calls[c]);
    }
    forall code | code in w'.sessions
      ensures PendingCode(w'.log, code, w'.sessions[code])
    {
      CodeStillPending(w.log, e, code, w.sessions[code]);
    }
  }

  lemma {:induction false} FreshStatePending(log: seq<Event>, e: Event)
    requires e.Started? && NewState(log, e.state) && Traced(log)
    ensures forall entry: Entry<LoginState> ::
              entry.value.org == e.org && entry.expiresAt == e.at + LOGIN_STATE_TTL ==>
                PendingState(log + [e], e.state, entry)
  {
    assert (log + [e])[|log|] == e;
    assert IsStart(e, e.state, e.org, e.at + LOGIN_STATE_TTL);
    forall j | 0 <= j < |log| && log[j].CalledBack?
      ensures log[j].state != e.state
    {
      var i :| 0 <= i < j && StartOf(log, i, j);
    }
  }

  lemma {:induction false} CallsWereStarted(w: World, state: Token)
    requires Inv(w) && NewState(w.log, state)
    ensures forall c :: c in w.calls ==> w.calls[c].state != state
  {
    forall c | c in w.calls
      ensures w.calls[c].state != state
    {
      var deadline :| w.calls[c].from <= deadline
          && StartedWith(w.log, w.calls[c].state, w.calls[c].login.org, deadline);
      var i :| 0 <= i < |w.log| && IsStart(w.log[i], w.calls[c].state, w.calls[c].login.org, deadline);
    }
  }

  lemma {:induction false} BeginKeepsInv(w: World, r: Request)
    requires Inv(w) && r.CallbackBegin? && FreshTokens(w, r)
    ensures Inv(Serve(w, r))
  {
    var (states, login) := Take(w.states, r.state, r.from);
    if !r.rejected && login.Some? {
      var c := Call(r.state, login.value, r.from);
      assert PendingState(w.log, r.state, w.states[r.state]);
      BeginKeepsApart(w, r.call, c);
      CallsStayPending(w, Serve(w, r), r.call, c);
    }
  }

  /** The state moves from the map to the callback. */
  lemma {:induction false} BeginKeepsApart(w: World, call: CallId, c: Call)
    requires Apart(w) && call !in w.calls && c.state in w.states
    ensures Apart(w.(states := w.states - {c.state}, calls := w.calls[call := c]))
  {
  }

  lemma {:induction false} CallsStayPending(w: World, w': World, call: CallId, c: Call)
    requires Inv(w) && c.state in w.states && c.login == w.states[c.state].value
             && c.from <= w.states[c.state].expiresAt
    requires w'.calls == w.calls[call := c] && w'.log == w.log
    ensures forall d :: d in w'.calls ==> PendingCall(w'.log, w'.calls[d])
  {
    assert PendingState(w.log, c.state, w.states[c.state]);
    assert StartedWith(w.log, c.state, c.login.org, w.states[c.state].expiresAt);
  }

  lemma {:induction false} EndKeepsInv(w: World, r: Request)
    requires Inv(w) && r.CallbackEnd? && FreshTokens(w, r)
    ensures Inv(Serve(w, r))
  {
    if r.call in w.calls && r.user.Some? && r.minted.Some? {
      var c := w.calls[r.call];
      var e := CalledBack(c.state, r.minted.value, c.login.org, r.user.value, c.from, r.until);
      CallLogged(w.log, c, e);
      TracedAppend(w.log, e);
      EndNoRepeats(w.log, e);
      FreshCodePending(w.log, e);
      EndKeepsPending(w, Serve(w, r), r.call, e);
    }
  }

  lemma {:induction false} CallLogged(log: seq<Event>, c: Call, e: Event)
    requires PendingCall(log, c) && e.CalledBack? && e.state == c.state && e.org == c.login.org && e.from == c.from
    ensures exists i :: 0 <= i < |log| && StartOf(log + [e], i, |log|)
  {
    var deadline :| c.from <= deadline && StartedWith(log, c.state, c.login.org, deadline);
    var i :| 0 <= i < |log| && IsStart(log[i], c.state, c.login.org, deadline);
    assert StartOf(log + [e], i, |log|);
  }

  lemma {:induction false} EndNoRepeats(log: seq<Event>, e: Event)
    requires NoRepeats(log) && e.CalledBack? && Unredeemed(log, e.state) && NewCode(log, e.code)
    ensures NoRepeats(log + [e])
  {
  }

  lemma {:induction false} FreshCodePending(log: seq<Event>, e: Event)
    requires e.CalledBack? && NewCode(log, e.code) && Traced(log)
    ensures PendingCode(log + [e], e.code, Entry(SessionToken(e.org, e.user), e.until + SESSION_CODE_TTL))
  {
    assert (log + [e])[|log|] == e;
    assert IsCallback(e, e.code, SessionToken(e.org, e.user), e.until + SESSION_CODE_TTL);
    forall k | 0 <= k < |log| && log[k].Exchanged?
      ensures log[k].code != e.code
    {
      var j :| 0 <= j < k && CallbackOf(log, j, k);
    }
  }

  lemma {:induction false} EndKeepsPending(w: World, w': World, call: CallId, e: Event)
    requires Inv(w) && call in w.calls && e.CalledBack? && e.state == w.calls[call].state
    requires w'.log == w.log + [e] && w'.states == w.states && w'.calls == w.calls - {call}
    requires NoRepeats(w'.log) && Traced(w'.log)
    requires forall code :: code in w'.sessions ==>
               (code in w.sessions && w'.sessions[code] == w.sessions[code])
                 || PendingCode(w'.log, code, w'.sessions[code])
    ensures Inv(w')
  {
    forall state | state in w'.states
      ensures PendingState(w'.log, state, w'.states[state])
    {
      StateStillPending(w.log, e, state, w.states[state]);
    }
    forall c | c in w'.calls
      ensures PendingCall(w'.log, w'.calls[c])
    {
      CallStillPending(w.log, e, w.calls[c]);
    }
    forall code | code in w'.sessions
      ensures PendingCode(w'.log, code, w'.sessions[code])
    {
      if code in w.sessions && w'.sessions[code] == w.sessions[code] {
        CodeStillPending(w.log, e, code, w.sessions[code]);
      }
    }
  }

  lemma {:induction false} ExchangeKeepsInv(w: World, r: Request)
    requires Inv(w) && r.Exchange?
    ensures Inv(Serve(w, r))
  {
    var (sessions, token) := Take(w.sessions, r.code, r.now);
    if token.Some? {
      var e := Exchanged(r.code, token.value, r.now);
      assert PendingCode(w.log, r.code, w.sessions[r.code]);
      ExchangeLogged(w.log, e, w.sessions[r.code].expiresAt);
      TracedAppend(w.log, e);
      ExchangeNoRepeats(w.log, e);
      ExchangeKeepsPending(w, Serve(w, r), e);
    }
  }

  lemma {:induction false} ExchangeLogged(log: seq<Event>, e: Event, deadline: int)
    requires e.Exchanged? && CalledBackWith(log, e.code, e.token, deadline) && e.at <= deadline
    ensures exists j :: 0 <= j < |log| && CallbackOf(log + [e], j, |log|)
  {
    var j :| 0 <= j < |log| && IsCallback(log[j], e.code, e.token, deadline);
    assert CallbackOf(log + [e], j, |log|);
  }

  lemma {:induction false} ExchangeNoRepeats(log: seq<Event>, e: Event)
    requires NoRepeats(log) && e.Exchanged? && Unexchanged(log, e.code)
    ensures NoRepeats(log + [e])
  {
  }

  lemma {:induction false} ExchangeKeepsPending(w: World, w': World, e: Event)
    requires Inv(w) && e.Exchanged? && w'.log == w.log + [e] && w'.states == w.states && w'.calls == w.calls
    requires w'.sessions == w.sessions - {e.code} && NoRepeats(w'.log) && Traced(w'.log)
    ensures Inv(w')
  {
    forall state | state in w'.states
      ensures PendingState(w'.log, state, w'.states[state])
    {
      StateStillPending(w.log, e, state, w.states[state]);
    }
    forall c | c in w'.calls
      ensures PendingCall(w'.log, w'.calls[c])
    {
      CallStillPending(w.log, e, w.calls[c]);
    }
    forall code | code in w'.sessions
      ensures PendingCode(w'.log, code, w'.sessions[code])
    {
      CodeStillPending(w.log, e, code, w.sessions[code]);
    }
  }

  lemma {:induction false} RunKeepsInv(w: World, requests: seq<Request>)
    requires Inv(w) && FreshRun(w, requests)
    ensures Inv(ServeAll(w, requests))
    decreases |requests|
  {
    if requests != [] {
      var r := requests[0];
      if r.Start? && r.available && r.tokens.Some? {
        StartKeepsInv(w, r);
      } else if r.CallbackBegin? {
        BeginKeepsInv(w, r);
      } else if r.CallbackEnd? {
        EndKeepsInv(w, r);
      } else if r.Exchange? {
        ExchangeKeepsInv(w, r);
      }
      RunKeepsInv(Serve(w, r), requests[1..]);
    }
  }

  /** Over every run, however callbacks overlap, an exchange that handed out a session token has exactly one
      callback behind it, finished at most 60 seconds earlier, and that callback has
      exactly one start, at most ten minutes before it began; the token names the
      organization of that start. */
  lemma {:induction false} ExchangeTracesBack(requests: seq<Request>, k: nat) returns (i: nat, j: nat)
    requires FreshRun(START, requests)
    requires var log := ServeAll(START, requests).log; k < |log| && log[k].Exchanged?
    ensures var log := ServeAll(START, requests).log;
            && i < j < k && log[i].Started? && log[j].CalledBack?
            && log[k].at <= log[j].until + 60 * SECOND
            && log[j].from <= log[i].at + 600 * SECOND
            && log[k].token.org == log[i].org && log[k].token.user == log[j].user
            && (forall j' :: 0 <= j' < |log| && log[j'].CalledBack? && log[j'].code == log[k].code ==> j' == j)
            && (forall i' :: 0 <= i' < |log| && log[i'].Started? && log[i'].state == log[j].state ==> i' == i)
  {
    var w := ServeAll(START, requests);
    RunKeepsInv(START, requests);
    j :| 0 <= j < k && CallbackOf(w.log, j, k);
    i :| 0 <= i < j && StartOf(w.log, i, j);
  }

  /** The tracing is injective: different exchanges come from different callbacks, and
      different callbacks from different starts. */
  lemma {:induction false} TracingIsInjective(requests: seq<Request>, i: nat, j1: nat, j2: nat, k1: nat, k2: nat)
    requires FreshRun(START, requests)
    ensures var log := ServeAll(START, requests).log;
            && (CallbackOf(log, j1, k1) && CallbackOf(log, j1, k2) ==> k1 == k2)
            && (StartOf(log, i, j1) && StartOf(log, i, j2) ==> j1 == j2)
  {
    RunKeepsInv(START, requests);
  }
}
