/** When a login succeeds (app/domain/ssoapp/ssoapp.go): the exchange of a code answers a
    session token exactly when a start, a callback and its end stand behind it, each in time
    and each the first to use what the one before it left. The condition speaks of the
    requests of a run alone. */
module SsoLaws {
  import opened Basics
  import opened OneTimeStore
  import opened SsoFlow

  // ---------------------------------------------------------------------------
  // Runs that grow at their end

  function TimeOf(r: Request): int
  {
    match r
    case Start(_, _, _, now) => now
    case CallbackBegin(_, _, _, from) => from
    case CallbackEnd(_, _, _, until) => until
    case Exchange(_, now) => now
  }

  /** Requests at non-decreasing times, none after `now`. */
  ghost predicate Clocked(requests: seq<Request>, now: int)
    decreases |requests|
  {
    requests == []
    || (var r := requests[|requests| - 1];
        TimeOf(r) <= now && Clocked(requests[..|requests| - 1], TimeOf(r)))
  }

  /** The world before request k. */
  ghost function Before(requests: seq<Request>, k: nat): World
    requires k <= |requests|
  {
    ServeAll(START, requests[..k])
  }

  lemma {:induction false} Split(w: World, a: seq<Request>, r: Request)
    ensures ServeAll(w, a + [r]) == Serve(ServeAll(w, a), r)
    ensures FreshRun(w, a + [r]) <==> FreshRun(w, a) && FreshTokens(ServeAll(w, a), r)
    decreases |a|
  {
    if a == [] {
      assert [r][1..] == [];
      assert ServeAll(w, [r]) == ServeAll(Serve(w, r), []);
    } else {
      assert (a + [r])[0] == a[0] && (a + [r])[1..] == a[1..] + [r];
      Split(Serve(w, a[0]), a[1..], r);
    }
  }

  lemma {:induction false} NextWorld(requests: seq<Request>, k: nat)
    requires k < |requests| && FreshRun(START, requests[..k + 1])
    ensures Before(requests, k + 1) == Serve(Before(requests, k), requests[k])
    ensures FreshRun(START, requests[..k]) && FreshTokens(Before(requests, k), requests[k])
  {
    assert requests[..k + 1] == requests[..k] + [requests[k]];
    Split(START, requests[..k], requests[k]);
  }

  lemma {:induction false} FreshPrefix(requests: seq<Request>, k: nat)
    requires k <= |requests| && FreshRun(START, requests)
    ensures FreshRun(START, requests[..k])
    decreases |requests| - k
  {
    if k == |requests| {
      assert requests[..k] == requests;
    } else {
      FreshPrefix(requests, k + 1);
      NextWorld(requests, k);
    }
  }

  lemma {:induction false} ClockedPrefix(requests: seq<Request>, k: nat, now: int)
    requires k < |requests| && Clocked(requests, now)
    ensures Clocked(requests[..k], TimeOf(requests[k])) && TimeOf(requests[k]) <= now
    decreases |requests|
  {
    var n := |requests| - 1;
    if k < n {
      ClockedPrefix(requests[..n], k, TimeOf(requests[n]));
      assert requests[..n][..k] == requests[..k];
    }
  }

  // ---------------------------------------------------------------------------
  // The two stores as histories of what the requests did to them

  /** What a request does to the store of login states; a request that does nothing counts as
      redeeming no token. */
  function StateOp(r: Request): Op<LoginState>
  {
    if r.Start? && r.available && r.tokens.Some? then
      var t := r.tokens.value;
      Issued(t.state, LoginState(r.org, t.nonce, t.verifier), r.now)
    else if r.CallbackBegin? && !r.rejected then Taken(r.state, r.from)
    else Taken("", TimeOf(r))
  }

  /** What it does to the store of session codes, in the world it meets. */
  ghost function SessionOp(w: World, r: Request): Op<SessionToken>
  {
    if r.CallbackEnd? && r.call in w.calls && r.user.Some? && r.minted.Some? then
      Issued(r.minted.value, SessionToken(w.calls[r.call].login.org, r.user.value), r.until)
    else if r.Exchange? then Taken(r.code, r.now)
    else Taken("", TimeOf(r))
  }

  ghost function StateOps(requests: seq<Request>): (ops: seq<Op<LoginState>>)
    ensures |ops| == |requests| && forall k :: 0 <= k < |ops| ==> ops[k] == StateOp(requests[k])
  {
    seq(|requests|, k requires 0 <= k < |requests| => StateOp(requests[k]))
  }

  ghost function SessionOps(requests: seq<Request>): (ops: seq<Op<SessionToken>>)
    ensures |ops| == |requests|
    ensures forall k :: 0 <= k < |ops| ==> ops[k] == SessionOp(Before(requests, k), requests[k])
  {
    seq(|requests|, k requires 0 <= k < |requests| => SessionOp(Before(requests, k), requests[k]))
  }

  lemma {:induction false} OpsOfPrefix(requests: seq<Request>)
    requires requests != []
    ensures var n := |requests| - 1;
            && StateOps(requests)[..n] == StateOps(requests[..n])
            && SessionOps(requests)[..n] == SessionOps(requests[..n])
  {
    var n := |requests| - 1;
    forall k | 0 <= k < n
      ensures SessionOps(requests)[k] == SessionOps(requests[..n])[k]
    {
      assert requests[..n][..k] == requests[..k];
    }
  }

  /** One more operation on a store. */
  function Apply<V>(m: Entries<V>, op: Op<V>, ttl: int): Entries<V>
  {
    match op
    case Issued(token, value, at) => Put(m, token, value, ttl, at)
    case Taken(token, at) => Take(m, token, at).0
  }

  lemma {:induction false} RequestApplies(w: World, r: Request)
    ensures Serve(w, r).states == Apply(w.states, StateOp(r), LOGIN_STATE_TTL)
    ensures Serve(w, r).sessions == Apply(w.sessions, SessionOp(w, r), SESSION_CODE_TTL)
  {
  }

  lemma {:induction false} ReplayApplies<V>(history: seq<Op<V>>, ttl: int)
    requires history != []
    ensures Replay(history, ttl) == Apply(Replay(history[..|history| - 1], ttl), history[|history| - 1], ttl)
  {
  }

  lemma {:induction false} OpsAreOrdered(requests: seq<Request>, now: int)
    requires Clocked(requests, now)
    ensures Ordered(StateOps(requests), now) && Ordered(SessionOps(requests), now)
    decreases |requests|
  {
    if requests != [] {
      var n := |requests| - 1;
      OpsAreOrdered(requests[..n], TimeOf(requests[n]));
      OpsOfPrefix(requests);
      assert StateOps(requests)[n].at == TimeOf(requests[n]) && SessionOps(requests)[n].at == TimeOf(requests[n]);
    }
  }

  /** Both stores are what their histories say. */
  lemma {:induction false} StoresFollowOps(requests: seq<Request>)
    requires FreshRun(START, requests)
    ensures ServeAll(START, requests).states == Replay(StateOps(requests), LOGIN_STATE_TTL)
    ensures ServeAll(START, requests).sessions == Replay(SessionOps(requests), SESSION_CODE_TTL)
    decreases |requests|
  {
    if requests != [] {
      var n := |requests| - 1;
      assert requests[..n + 1] == requests;
      NextWorld(requests, n);
      StoresFollowOps(requests[..n]);
      OpsOfPrefix(requests);
      RequestApplies(Before(requests, n), requests[n]);
      ReplayApplies(StateOps(requests), LOGIN_STATE_TTL);
      ReplayApplies(SessionOps(requests), SESSION_CODE_TTL);
    }
  }

  // ---------------------------------------------------------------------------
  // What the requests of a run do, one at a time

  /** The request starts this login, with this state. */
  predicate Starts(r: Request, login: LoginState, state: Token)
  {
    && r.Start? && r.available && r.org == login.org
    && r.tokens == Some(LoginTokens(state, login.nonce, login.verifier))
  }

  /** A callback on the state that carries no error from the provider. */
  predicate CallsBack(r: Request, state: Token) { r.CallbackBegin? && !r.rejected && r.state == state }

  predicate EndsCall(r: Request, call: CallId) { r.CallbackEnd? && r.call == call }

  predicate Exchanges(r: Request, code: Token) { r.Exchange? && r.code == code }

  lemma {:induction false} StartIsLogged(requests: seq<Request>, i: nat, login: LoginState, state: Token)
    requires i < |requests| && Starts(requests[i], login, state) && FreshRun(START, requests)
    ensures !NewState(ServeAll(START, requests).log, state)
    decreases |requests|
  {
    var n := |requests| - 1;
    assert requests[..n + 1] == requests;
    NextWorld(requests, n);
    var before, after := Before(requests, n).log, ServeAll(START, requests).log;
    if i == n {
      assert after[|before|] == Started(state, login.org, requests[n].now);
    } else {
      StartIsLogged(requests[..n], i, login, state);
      var k :| 0 <= k < |before| && before[k].Started? && before[k].state == state;
      assert after[k] == before[k];
    }
  }

  lemma {:induction false} StateIsIssuedOnce(requests: seq<Request>, i: nat, m: nat, login: LoginState, state: Token)
    requires i < m < |requests| && FreshRun(START, requests)
    requires Starts(requests[i], login, state)
    ensures !(StateOp(requests[m]).Issued? && StateOp(requests[m]).token == state)
  {
    FreshPrefix(requests, m + 1);
    NextWorld(requests, m);
    StartIsLogged(requests[..m], i, login, state);
  }

  /** The callback at j redeems the state of the start at i. */
  ghost predicate Redeems(requests: seq<Request>, i: nat, j: nat, login: LoginState)
  {
    && i < j < |requests| && requests[j].CallbackBegin? && !requests[j].rejected && requests[j].state != ""
    && Starts(requests[i], login, requests[j].state)
    && requests[j].from <= requests[i].now + 600 * SECOND
    && forall m :: i < m < j ==> !CallsBack(requests[m], requests[j].state)
  }

  ghost predicate GoesOn(requests: seq<Request>, j: nat, login: LoginState)
  {
    exists i: nat :: Redeems(requests, i, j, login)
  }

  /** A callback goes on to the provider exactly when it redeems the state of a start, and
      with the organization, nonce and verifier of that start. */
  lemma {:induction false} CallbackGoesOnIff(requests: seq<Request>, j: nat, login: LoginState, now: int)
    requires FreshRun(START, requests) && Clocked(requests, now)
    requires j < |requests| && requests[j].CallbackBegin? && !requests[j].rejected
    ensures Take(Before(requests, j).states, requests[j].state, requests[j].from).1 == Some(login)
       <==> GoesOn(requests, j, login)
  {
    var past, state, from := requests[..j], requests[j].state, requests[j].from;
    FreshPrefix(requests, j);
    ClockedPrefix(requests, j, now);
    StoresFollowOps(past);
    OpsAreOrdered(past, from);
    if state != "" {
      TokenIsSingleUse(StateOps(past), LOGIN_STATE_TTL, from, state, login);
      if Take(Before(requests, j).states, state, from).1 == Some(login) {
        var i: nat :| StillGood(StateOps(past), i, state, login, LOGIN_STATE_TTL, from);
        IssueRedeems(requests, i, j, login);
      }
      if i: nat :| Redeems(requests, i, j, login) {
        StartStillCounts(requests, i, j, login);
      }
    }
  }

  lemma {:induction false} IssueRedeems(requests: seq<Request>, i: nat, j: nat, login: LoginState)
    requires j < |requests| && requests[j].CallbackBegin? && !requests[j].rejected
    requires requests[j].state != ""
    requires StillGood(StateOps(requests[..j]), i, requests[j].state, login, LOGIN_STATE_TTL, requests[j].from)
    ensures Redeems(requests, i, j, login)
  {
    var ops := StateOps(requests[..j]);
    assert ops[i] == StateOp(requests[i]);
    forall m | i < m < j
      ensures !CallsBack(requests[m], requests[j].state)
    {
      assert ops[m] == StateOp(requests[m]) && ops[m].token != requests[j].state;
    }
  }

  lemma {:induction false} StartStillCounts(requests: seq<Request>, i: nat, j: nat, login: LoginState)
    requires FreshRun(START, requests) && Redeems(requests, i, j, login)
    ensures StillGood(StateOps(requests[..j]), i, requests[j].state, login, LOGIN_STATE_TTL, requests[j].from)
  {
    var ops, state := StateOps(requests[..j]), requests[j].state;
    assert ops[i] == StateOp(requests[i]);
    forall m | i < m < j
      ensures ops[m].token != state
    {
      assert ops[m] == StateOp(requests[m]);
      StateIsIssuedOnce(requests, i, m, login, state);
      assert !CallsBack(requests[m], state);
    }
  }

  /** The callback that began at j, as `call`, is under way when request e comes. */
  ghost predicate UnderWay(requests: seq<Request>, call: CallId, j: nat, e: nat, login: LoginState)
  {
    && j < e <= |requests| && requests[j].CallbackBegin? && requests[j].call == call && GoesOn(requests, j, login)
    && forall m :: j < m < e ==> !EndsCall(requests[m], call)
  }

  ghost predicate SomeUnderWay(requests: seq<Request>, call: CallId, e: nat, login: LoginState)
  {
    exists j: nat :: UnderWay(requests, call, j, e, login)
  }

  lemma {:induction false} UnderWayStep(requests: seq<Request>, e: nat, call: CallId, login: LoginState)
    requires e < |requests|
    ensures var r := requests[e];
            SomeUnderWay(requests, call, e + 1, login) <==>
            || (r.CallbackBegin? && r.call == call && GoesOn(requests, e, login))
            || (!EndsCall(r, call) && SomeUnderWay(requests, call, e, login))
  {
    var next := e + 1;
    if j: nat :| UnderWay(requests, call, j, next, login) {
      assert j < e ==> UnderWay(requests, call, j, e, login);
    }
    if requests[e].CallbackBegin? && requests[e].call == call && GoesOn(requests, e, login) {
      assert UnderWay(requests, call, e, e + 1, login);
    }
    if !EndsCall(requests[e], call) {
      if j: nat :| UnderWay(requests, call, j, e, login) {
        assert UnderWay(requests, call, j, e + 1, login);
      }
    }
  }

  ghost predicate CallFor(w: World, call: CallId, login: LoginState) { call in w.calls && w.calls[call].login == login }

  lemma {:induction false} CallStep(w: World, r: Request, call: CallId, login: LoginState)
    requires FreshTokens(w, r)
    ensures CallFor(Serve(w, r), call, login) <==>
            || (r.CallbackBegin? && r.call == call && !r.rejected
                && Take(w.states, r.state, r.from).1 == Some(login))
            || (!EndsCall(r, call) && CallFor(w, call, login))
  {
  }

  /** A callback is under way with a login exactly when its beginning redeemed the start of
      that login and it has not ended since. */
  lemma {:induction false} UnderWayIff(requests: seq<Request>, e: nat, call: CallId, login: LoginState, now: int)
    requires FreshRun(START, requests) && Clocked(requests, now) && e <= |requests|
    ensures CallFor(Before(requests, e), call, login) <==> SomeUnderWay(requests, call, e, login)
    decreases e
  {
    if e > 0 {
      var r := requests[e - 1];
      FreshPrefix(requests, e);
      NextWorld(requests, e - 1);
      if r.CallbackBegin? && !r.rejected {
        CallbackGoesOnIff(requests, e - 1, login, now);
      }
      UnderWayIff(requests, e - 1, call, login, now);
      UnderWayStep(requests, e - 1, call, login);
      CallStep(Before(requests, e - 1), r, call, login);
    }
  }

  // ---------------------------------------------------------------------------
  // The exchange

  /** The request at e ends a callback of the organization with the user and the code. */
  ghost predicate HandsOut(requests: seq<Request>, e: nat, org: OrgId, user: UserId, code: Token)
  {
    && e < |requests| && requests[e].CallbackEnd?
    && requests[e].user == Some(user) && requests[e].minted == Some(code)
    && exists login: LoginState :: login.org == org && SomeUnderWay(requests, requests[e].call, e, login)
  }

  lemma {:induction false} HandsOutIff(requests: seq<Request>, e: nat, org: OrgId, user: UserId, code: Token, now: int)
    requires FreshRun(START, requests) && Clocked(requests, now) && e < |requests|
    ensures HandsOut(requests, e, org, user, code) <==>
            SessionOp(Before(requests, e), requests[e])
            == Issued(code, SessionToken(org, user), TimeOf(requests[e]))
  {
    var r := requests[e];
    if r.CallbackEnd? {
      var calls := Before(requests, e).calls;
      if r.call in calls {
        UnderWayIff(requests, e, r.call, calls[r.call].login, now);
      }
      if login: LoginState :| login.org == org && SomeUnderWay(requests, r.call, e, login) {
        UnderWayIff(requests, e, r.call, login, now);
      }
    }
  }

  lemma {:induction false} CodeIsLogged(requests: seq<Request>, e: nat, code: Token)
    requires e < |requests| && FreshRun(START, requests)
    requires SessionOp(Before(requests, e), requests[e]).Issued?
             && SessionOp(Before(requests, e), requests[e]).token == code
    ensures !NewCode(ServeAll(START, requests).log, code)
    decreases |requests|
  {
    var n := |requests| - 1;
    assert requests[..n + 1] == requests;
    NextWorld(requests, n);
    var before, after := Before(requests, n).log, ServeAll(START, requests).log;
    if e == n {
      assert after[|before|].CalledBack? && after[|before|].code == code;
    } else {
      assert requests[..n][..e] == requests[..e];
      CodeIsLogged(requests[..n], e, code);
      var k :| 0 <= k < |before| && before[k].CalledBack? && before[k].code == code;
      assert after[k] == before[k];
    }
  }

  lemma {:induction false} CodeIsIssuedOnce(requests: seq<Request>, e: nat, m: nat, code: Token)
    requires e < m < |requests| && FreshRun(START, requests)
    requires SessionOp(Before(requests, e), requests[e]).Issued?
             && SessionOp(Before(requests, e), requests[e]).token == code
    ensures !(SessionOp(Before(requests, m), requests[m]).Issued?
              && SessionOp(Before(requests, m), requests[m]).token == code)
  {
    FreshPrefix(requests, m + 1);
    NextWorld(requests, m);
    assert requests[..m][..e] == requests[..e];
    CodeIsLogged(requests[..m], e, code);
  }

  /** A callback of the organization ended at e with the user and this code, at most 60
      seconds ago, and nobody has exchanged the code since. */
  ghost predicate Exchangeable(requests: seq<Request>, e: nat, org: OrgId, user: UserId, code: Token, now: int)
  {
    && HandsOut(requests, e, org, user, code) && code != "" && now <= TimeOf(requests[e]) + 60 * SECOND
    && forall m :: e < m < |requests| ==> !Exchanges(requests[m], code)
  }

  ghost predicate SomeExchangeable(requests: seq<Request>, org: OrgId, user: UserId, code: Token, now: int)
  {
    exists e: nat :: Exchangeable(requests, e, org, user, code, now)
  }

  lemma {:induction false} GoodIsExchangeable(requests: seq<Request>, e: nat, code: Token, now: int, org: OrgId,
                                              user: UserId)
    requires FreshRun(START, requests) && Clocked(requests, now) && code != ""
    requires StillGood(SessionOps(requests), e, code, SessionToken(org, user), SESSION_CODE_TTL, now)
    ensures Exchangeable(requests, e, org, user, code, now)
  {
    var ops := SessionOps(requests);
    HandsOutIff(requests, e, org, user, code, now);
    assert ops[e] == SessionOp(Before(requests, e), requests[e]) && ops[e].at == TimeOf(requests[e]);
    forall m | e < m < |requests|
      ensures !Exchanges(requests[m], code)
    {
      assert ops[m] == SessionOp(Before(requests, m), requests[m]) && ops[m].token != code;
    }
  }

  lemma {:induction false} ExchangeableIsGood(requests: seq<Request>, e: nat, code: Token, now: int, org: OrgId,
                                              user: UserId)
    requires FreshRun(START, requests) && Clocked(requests, now)
    requires Exchangeable(requests, e, org, user, code, now)
    ensures StillGood(SessionOps(requests), e, code, SessionToken(org, user), SESSION_CODE_TTL, now)
  {
    var ops := SessionOps(requests);
    HandsOutIff(requests, e, org, user, code, now);
    assert ops[e] == SessionOp(Before(requests, e), requests[e]);
    forall m | e < m < |ops|
      ensures ops[m].token != code
    {
      CodeIsIssuedOnce(requests, e, m, code);
      assert !Exchanges(requests[m], code) && ops[m] == SessionOp(Before(requests, m), requests[m]);
    }
  }

  /** When an exchange succeeds, told from the last request that mentioned its code. */
  lemma {:induction false} ExchangeIff(requests: seq<Request>, code: Token, now: int, org: OrgId, user: UserId)
    requires FreshRun(START, requests) && Clocked(requests, now)
    ensures Take(ServeAll(START, requests).sessions, code, now).1 == Some(SessionToken(org, user)) <==>
            SomeExchangeable(requests, org, user, code, now)
  {
    StoresFollowOps(requests);
    OpsAreOrdered(requests, now);
    var ops, token := SessionOps(requests), SessionToken(org, user);
    if code != "" {
      TokenIsSingleUse(ops, SESSION_CODE_TTL, now, code, token);
    }
    if Take(ServeAll(START, requests).sessions, code, now).1 == Some(token) {
      var e: nat :| StillGood(ops, e, code, token, SESSION_CODE_TTL, now);
      GoodIsExchangeable(requests, e, code, now, org, user);
    }
    if e: nat :| Exchangeable(requests, e, org, user, code, now) {
      ExchangeableIsGood(requests, e, code, now, org, user);
    }
  }

  /** One login of a run, from its start at i over its callback, begun at j and ended at e, to
      the exchange of its code at `now`. */
  ghost predicate LoginAt(requests: seq<Request>, i: nat, j: nat, e: nat, org: OrgId, user: UserId, code: Token,
                          now: int)
  {
    && i < j < e < |requests|
    && (exists login: LoginState, state: Token :: login.org == org && state != ""
          && Starts(requests[i], login, state) && CallsBack(requests[j], state)
          && forall m :: i < m < j ==> !CallsBack(requests[m], state))
    && TimeOf(requests[j]) <= TimeOf(requests[i]) + 600 * SECOND
    && requests[e] == CallbackEnd(requests[j].call, Some(user), Some(code), TimeOf(requests[e]))
    && (forall m :: j < m < e ==> !EndsCall(requests[m], requests[j].call))
    && code != "" && (forall m :: e < m < |requests| ==> !Exchanges(requests[m], code))
    && now <= TimeOf(requests[e]) + 60 * SECOND
  }

  lemma {:induction false} ExchangeableIsLogin(requests: seq<Request>, e: nat, code: Token, now: int, org: OrgId,
                                               user: UserId)
    returns (i: nat, j: nat)
    requires Exchangeable(requests, e, org, user, code, now)
    ensures LoginAt(requests, i, j, e, org, user, code, now)
  {
    var login: LoginState :| login.org == org && SomeUnderWay(requests, requests[e].call, e, login);
    j :| UnderWay(requests, requests[e].call, j, e, login);
    i :| Redeems(requests, i, j, login);
    assert CallsBack(requests[j], requests[j].state);
  }

  lemma {:induction false} LoginIsExchangeable(requests: seq<Request>, i: nat, j: nat, e: nat, code: Token, now: int,
                                               org: OrgId, user: UserId)
    requires LoginAt(requests, i, j, e, org, user, code, now)
    ensures Exchangeable(requests, e, org, user, code, now)
  {
    var login: LoginState, state: Token :| login.org == org && state != "" && Starts(requests[i], login, state)
        && CallsBack(requests[j], state) && forall m :: i < m < j ==> !CallsBack(requests[m], state);
    assert Redeems(requests, i, j, login);
    assert UnderWay(requests, requests[e].call, j, e, login);
  }

  /** A login succeeds if and only if it is one. In every run with fresh tokens at
      non-decreasing times, the exchange of a code answers the session token of a user in an
      organization exactly when: an available start of the organization drew a state; the
      first callback on that state without an error from the provider began within ten
      minutes; that callback, once, ended with the user and the code; and this is the first
      exchange of the code since, within a minute. */
  lemma {:induction false} LoginSucceedsIff(requests: seq<Request>, code: Token, now: int, org: OrgId, user: UserId)
    requires FreshRun(START, requests) && Clocked(requests, now)
    ensures Take(ServeAll(START, requests).sessions, code, now).1 == Some(SessionToken(org, user)) <==>
            exists i: nat, j: nat, e: nat :: LoginAt(requests, i, j, e, org, user, code, now)
  {
    ExchangeIff(requests, code, now, org, user);
    if e: nat :| Exchangeable(requests, e, org, user, code, now) {
      var i, j := ExchangeableIsLogin(requests, e, code, now, org, user);
    }
    if i: nat, j: nat, e: nat :| LoginAt(requests, i, j, e, org, user, code, now) {
      LoginIsExchangeable(requests, i, j, e, code, now, org, user);
    }
  }
}
