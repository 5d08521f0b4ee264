/** Single-use, short-lived tokens kept in memory: the WebSocket tickets of
    app/domain/logapp/streamticket.go and the login states and session codes of
    app/domain/ssoapp/state.go. The three stores share one shape, a map from a random
    token to an entry with an expiry, swept whenever a token is added.

    The main results compare that map with the history of the calls made on it: what a
    token is worth depends only on the last call that mentioned it, and the sweep
    cannot be observed. */
module OneTimeStore {
  import opened Basics

  const SECOND: int := 1_000_000_000

  type Token = string

  datatype Entry<+V> = Entry(value: V, expiresAt: int)

  type Entries<V> = map<Token, Entry<V>>

  /** The entries that are not past their expiry. */
  function Swept<V>(m: Entries<V>, now: int): Entries<V>
  {
    map k | k in m && now <= m[k].expiresAt :: m[k]
  }

  function Put<V>(m: Entries<V>, token: Token, value: V, ttl: int, now: int): Entries<V>
  {
    Swept(m, now)[token := Entry(value, now + ttl)]
  }

  /** Redeems a token: it is gone afterwards, whether or not it was still good. */
  function Take<V>(m: Entries<V>, token: Token, now: int): (Entries<V>, Option<V>)
  {
    if token == "" then (m, None)
    else (m - {token}, if token in m && now <= m[token].expiresAt then Some(m[token].value) else None)
  }

  class Store<V(==)> {
    var m: Entries<V>
    const ttl: int

    constructor (ttl: int)
      ensures m == map[] && this.ttl == ttl
    {
      m := map[];
      this.ttl := ttl;
    }

    /** token is what the random source returned; None when it failed. */
    method Add(token: Option<Token>, value: V, now: int) returns (ok: bool)
      modifies this
      ensures ok == token.Some?
      ensures m == if token.Some? then Put(old(m), token.value, value, ttl, now) else old(m)
      ensures token.Some? ==> forall k :: k in m && k != token.value ==> now <= m[k].expiresAt
      ensures token.Some? ==> token.value in m && m[token.value] == Entry(value, now + ttl)
    {
      if token.None? {
        return false;
      }
      var keys := m.Keys;
      ghost var start := m;
      while keys != {}
        invariant keys <= m.Keys <= start.Keys
        invariant forall k :: k in m ==> m[k] == start[k]
        invariant forall k :: k in start && k !in keys ==> (k in m <==> now <= start[k].expiresAt)
        decreases keys
      {
        var k :| k in keys;
        if now > m[k].expiresAt {
          m := m - {k};
        }
        keys := keys - {k};
      }
      assert m == Swept(start, now);
      m := m[token.value := Entry(value, now + ttl)];
      return true;
    }

    method Consume(token: Token, now: int) returns (r: Option<V>)
      modifies this
      ensures (m, r) == Take(old(m), token, now)
      ensures token != "" ==> token !in m
    {
      if token == "" {
        return None;
      }
      var found := if token in m then Some(m[token]) else None;
      m := m - {token};
      if found.None? || now > found.value.expiresAt {
        return None;
      }
      return Some(found.value.value);
    }
  }

  // ---------------------------------------------------------------------------
  // Histories

  datatype Op<+V> = Issued(token: Token, value: V, at: int) | Taken(token: Token, at: int)

  /** Calls at non-decreasing times, none after `now`. */
  ghost predicate Ordered<V>(history: seq<Op<V>>, now: int)
    decreases |history|
  {
    history == []
    || (history[|history| - 1].at <= now && Ordered(history[..|history| - 1], history[|history| - 1].at))
  }

  /** The map after a history, starting empty. */
  ghost function Replay<V>(history: seq<Op<V>>, ttl: int): Entries<V>
    decreases |history|
  {
    if history == [] then map[]
    else
      var before := Replay(history[..|history| - 1], ttl);
      match history[|history| - 1]
      case Issued(token, value, at) => Put(before, token, value, ttl, at)
      case Taken(token, at) => Take(before, token, at).0
  }

  /** The last call that mentioned the token. */
  ghost function LastOp<V>(history: seq<Op<V>>, token: Token): Option<Op<V>>
    decreases |history|
  {
    if history == [] then None
    else if history[|history| - 1].token == token then Some(history[|history| - 1])
    else LastOp(history[..|history| - 1], token)
  }

  /** What a token is worth, read off the history with no map and no sweep. */
  ghost function Worth<V>(history: seq<Op<V>>, token: Token, ttl: int, now: int): Option<V>
  {
    match LastOp(history, token)
    case Some(Issued(_, value, at)) => if token != "" && now <= at + ttl then Some(value) else None
    case _ => None
  }

  lemma {:induction false} ReplayFollowsLastOp<V>(history: seq<Op<V>>, ttl: int, now: int, token: Token)
    requires Ordered(history, now) && token != ""
    ensures var m, last := Replay(history, ttl), LastOp(history, token);
            if last.Some? && last.value.Issued? && now <= last.value.at + ttl then
              token in m && m[token] == Entry(last.value.value, last.value.at + ttl)
            else
              token in m ==> now > m[token].expiresAt
    decreases |history|
  {
    if history != [] {
      var op := history[|history| - 1];
      ReplayFollowsLastOp(history[..|history| - 1], ttl, op.at, token);
    }
  }

  /** The store equals its history: after any calls at non-decreasing times a token is
      redeemed exactly for what its last mention issued, if that is young enough. */
  lemma {:induction false} StoreEqualsHistory<V>(history: seq<Op<V>>, ttl: int, now: int, token: Token)
    requires Ordered(history, now)
    ensures Take(Replay(history, ttl), token, now).1 == Worth(history, token, ttl, now)
  {
    if token != "" {
      ReplayFollowsLastOp(history, ttl, now, token);
    }
  }

  // ---------------------------------------------------------------------------
  // Fresh tokens

  /** The random source produced the token once: nothing mentions it before its issue. */
  ghost predicate FreshWhenIssued<V>(history: seq<Op<V>>, token: Token)
  {
    forall i, j :: 0 <= i < j < |history| && history[j].Issued? && history[j].token == token ==>
      history[i].token != token
  }

  ghost predicate TakenBefore<V>(history: seq<Op<V>>, token: Token)
  {
    exists i :: 0 <= i < |history| && history[i] == Taken(token, history[i].at)
  }

  ghost predicate IssuedAs<V>(history: seq<Op<V>>, token: Token, value: V, at: int)
  {
    Issued(token, value, at) in history
  }

  lemma {:induction false} LastOpIs<V>(history: seq<Op<V>>, token: Token, i: nat)
    requires i < |history| && history[i].token == token
    requires forall j :: i < j < |history| ==> history[j].token != token
    ensures LastOp(history, token) == Some(history[i])
    decreases |history|
  {
    if i < |history| - 1 {
      LastOpIs(history[..|history| - 1], token, i);
    }
  }

  lemma {:induction false} LastOpExists<V>(history: seq<Op<V>>, token: Token) returns (i: nat)
    requires LastOp(history, token).Some?
    ensures i < |history| && LastOp(history, token) == Some(history[i]) && history[i].token == token
    ensures forall j :: i < j < |history| ==> history[j].token != token
    decreases |history|
  {
    i := |history| - 1;
    if history[i].token != token {
      i := LastOpExists(history[..i], token);
    }
  }

  /** Operation i issued the token for the value, in time, and nothing mentioned it since. */
  ghost predicate StillGood<V(!new)>(history: seq<Op<V>>, i: nat, token: Token, value: V, ttl: int, now: int)
  {
    && i < |history| && history[i] == Issued(token, value, history[i].at) && now <= history[i].at + ttl
    && forall j :: i < j < |history| ==> history[j].token != token
  }

  /** A token is redeemed for a value exactly when it was issued for it, has not outlived its
      ttl, and nothing mentioned it since: redeeming it, in time or not, uses it up. */
  lemma {:induction false} TokenIsSingleUse<V(!new)>(history: seq<Op<V>>, ttl: int, now: int, token: Token, value: V)
    requires Ordered(history, now) && token != ""
    ensures Take(Replay(history, ttl), token, now).1 == Some(value) <==>
            exists i: nat :: StillGood(history, i, token, value, ttl, now)
  {
    StoreEqualsHistory(history, ttl, now, token);
    if Worth(history, token, ttl, now) == Some(value) {
      var i := LastOpExists(history, token);
      assert StillGood(history, i, token, value, ttl, now);
    }
    if i: nat :| StillGood(history, i, token, value, ttl, now) {
      LastOpIs(history, token, i);
    }
  }
}

/** WebSocket tickets (app/domain/logapp/streamticket.go). */
module StreamTickets {
  import opened Basics
  import opened OneTimeStore

  const STREAM_TICKET_TTL: int := 30 * SECOND

  type UserId = nat
  type ProjectId = nat

  datatype Ticket = Ticket(user: UserId, project: ProjectId)

  datatype Redeemed = Granted(user: UserId) | Invalid | WrongProject

  function Judged(found: Option<Ticket>, project: ProjectId): Redeemed
  {
    if found.None? then Invalid
    else if found.value.project != project then WrongProject
    else Granted(found.value.user)
  }

  class TicketStore {
    const store: Store<Ticket>

    constructor ()
      ensures fresh(store) && store.m == map[] && store.ttl == STREAM_TICKET_TTL
    {
      store := new Store(STREAM_TICKET_TTL);
    }

    method Issue(raw: Option<Token>, user: UserId, project: ProjectId, now: int) returns (ok: bool)
      modifies store
      ensures ok == raw.Some?
      ensures store.m == if ok then Put(old(store.m), raw.value, Ticket(user, project), store.ttl, now)
              else old(store.m)
    {
      ok := store.Add(raw, Ticket(user, project), now);
    }

    method Consume(raw: Token, project: ProjectId, now: int) returns (r: Redeemed)
      modifies store
      ensures store.m == Take(old(store.m), raw, now).0
      ensures r == Judged(Take(old(store.m), raw, now).1, project)
    {
      var found := store.Consume(raw, now);
      if found.None? {
        return Invalid;
      }
      if found.value.project != project {
        return WrongProject;
      }
      return Granted(found.value.user);
    }
  }

  lemma {:induction false} NotTaken<V>(history: seq<Op<V>>, token: Token, j: nat)
    requires !TakenBefore(history, token) && j < |history| && history[j].Taken?
    ensures history[j].token != token
  {
    assert history[j] == Taken(history[j].token, history[j].at);
  }

  /** A ticket opens the stream of `project` for `user` exactly when it was issued to
      that user for that project at most 30 seconds ago and no redemption of it, for
      this project or another, came in between. */
  lemma {:induction false} TicketEqualsHistory(history: seq<Op<Ticket>>, now: int, raw: Token, project: ProjectId,
                                               user: UserId)
    requires Ordered(history, now) && raw != "" && FreshWhenIssued(history, raw)
    ensures Judged(Take(Replay(history, STREAM_TICKET_TTL), raw, now).1, project) == Granted(user) <==>
            && !TakenBefore(history, raw)
            && exists at :: IssuedAs(history, raw, Ticket(user, project), at) && now <= at + 30 * SECOND
  {
    var ticket := Ticket(user, project);
    TokenIsSingleUse(history, STREAM_TICKET_TTL, now, raw, ticket);
    var redeemed := Take(Replay(history, STREAM_TICKET_TTL), raw, now).1;
    if redeemed == Some(ticket) {
      var i: nat :| StillGood(history, i, raw, ticket, STREAM_TICKET_TTL, now);
      assert IssuedAs(history, raw, ticket, history[i].at);
    }
    if !TakenBefore(history, raw) && exists at :: IssuedAs(history, raw, ticket, at) && now <= at + 30 * SECOND {
      var at :| IssuedAs(history, raw, ticket, at) && now <= at + 30 * SECOND;
      var i: nat :| i < |history| && history[i] == Issued(raw, ticket, at);
      forall j | i < j < |history|
        ensures history[j].token != raw
      {
        if history[j].Taken? {
          NotTaken(history, raw, j);
        }
      }
      assert StillGood(history, i, raw, ticket, STREAM_TICKET_TTL, now);
    }
  }

  /** It is refused as one for another project exactly when it would open that one, and as
      invalid exactly when it would open none. */
  lemma {:induction false} RefusalNamesTheReason(history: seq<Op<Ticket>>, now: int, raw: Token, project: ProjectId)
    ensures var found := Take(Replay(history, STREAM_TICKET_TTL), raw, now).1;
            && (Judged(found, project) == WrongProject <==>
                  exists other, user :: other != project && Judged(found, other) == Granted(user))
            && (Judged(found, project) == Invalid <==> forall other, user :: Judged(found, other) != Granted(user))
  {
    var found := Take(Replay(history, STREAM_TICKET_TTL), raw, now).1;
    if found.Some? {
      assert Judged(found, found.value.project) == Granted(found.value.user);
    }
  }
}
