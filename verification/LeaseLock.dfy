/**
The single-flight lock: a Redis key owned by a random token, taken with SETNX, renewed with a
compare-and-expire script and released with a compare-and-delete script. Time is in milliseconds.
 */
module LeaseLock {
  import opened Wrappers

  const DEFAULT_LOCK_TTL: int := 300_000

  datatype Entry = Entry(token: nat, expiresAt: int)

  /** Redis holds the key at time now. */
  predicate Live(key: Option<Entry>, now: int) {
    key.Some? && now < key.value.expiresAt
  }

  function SetNx(key: Option<Entry>, now: int, token: nat, ttl: int): (r: Option<Entry>) {
    if Live(key, now) then key else Some(Entry(token, now + ttl))
  }

  function Renewed(key: Option<Entry>, now: int, token: nat, ttl: int): (r: Option<Entry>) {
    if Live(key, now) && key.value.token == token then Some(Entry(token, now + ttl)) else key
  }

  function Released(key: Option<Entry>, now: int, token: nat): (r: Option<Entry>) {
    if Live(key, now) && key.value.token == token then None else key
  }

  class RedisStore {
    var key: Option<Entry>
    var now: int

    constructor ()
      ensures key == None && now == 0
    {
      key, now := None, 0;
    }
  }

  class Lock {
    const store: RedisStore
    const ttl: int
    var token: Option<nat>

    constructor (store: RedisStore, ttl: int)
      ensures this.store == store && token == None
      ensures this.ttl == if ttl > 0 then ttl else 300_000
    {
      this.store := store;
      this.ttl := if ttl <= 0 then DEFAULT_LOCK_TTL else ttl;
      this.token := None;
    }

    /** Tries to take the lock with a newly minted token; none is minted when randomness fails. */
    method Acquire(minted: Option<nat>, reachable: bool) returns (acquired: bool)
      modifies this, store`key
      ensures acquired <==> minted.Some? && reachable && !Live(old(store.key), store.now)
      ensures token == if acquired then minted else old(token)
      ensures store.key == if minted.Some? && reachable then SetNx(old(store.key), store.now, minted.value, ttl)
          else old(store.key)
    {
      if minted.None? || !reachable {
        return false;
      }
      if store.key.Some? && store.now < store.key.value.expiresAt {
        return false;
      }
      store.key := Some(Entry(minted.value, store.now + ttl));
      token := minted;
      return true;
    }

    /** One heartbeat. */
    method Renew(reachable: bool)
      modifies store`key
      ensures store.key == if reachable && token.Some? then Renewed(old(store.key), store.now, token.value, ttl)
          else old(store.key)
    {
      if reachable && token.Some? && store.key.Some? && store.now < store.key.value.expiresAt
          && store.key.value.token == token.value {
        store.key := Some(Entry(token.value, store.now + ttl));
      }
    }

    /** Drops the lock if this holder still owns it; safe to call at any time, any number of times. */
    method Release(reachable: bool)
      modifies this, store`key
      ensures token == None
      ensures store.key == if reachable && old(token).Some? then Released(old(store.key), store.now, old(token).value)
          else old(store.key)
    {
      if token.None? {
        return;
      }
      if reachable && store.key.Some? && store.now < store.key.value.expiresAt && store.key.value.token == token.value {
        store.key := None;
      }
      token := None;
    }
  }

  // ---------------------------------------------------------------------------------------
  // Many clients
  // ---------------------------------------------------------------------------------------

  /** A client is inside its function with the token of its acquisition; leaseEnd is when the
      lease it was last granted runs out. */
  datatype Client = Outside | Inside(token: nat, leaseEnd: int)

  datatype World = World(now: int, key: Option<Entry>, clients: map<nat, Client>, issued: set<nat>)

  /** Release and renew scripts carry a token and may reach Redis at any time, long after the
      client that sent them has moved on. A release is only sent once its client has left. */
  datatype Action =
    | Enter(client: nat, minted: nat)
    | RenewScript(sent: nat)
    | Leave(client: nat)
    | ReleaseScript(sent: nat)
    | Elapse(ms: nat)

  ghost predicate HeldInside(w: World, token: nat) {
    exists c :: c in w.clients && w.clients[c].Inside? && w.clients[c].token == token
  }

  ghost function Granted(clients: map<nat, Client>, token: nat, end: int): (r: map<nat, Client>) {
    map c | c in clients :: if clients[c].Inside? && clients[c].token == token then Inside(token, end) else clients[c]
  }

  ghost function Step(w: World, a: Action, ttl: int): (r: World) {
    match a
    case Enter(c, minted) =>
      if c !in w.clients || w.clients[c].Inside? || minted in w.issued then w
      else
        var clients := if Live(w.key, w.now) then w.clients else w.clients[c := Inside(minted, w.now + ttl)];
        World(w.now, SetNx(w.key, w.now, minted, ttl), clients, w.issued + {minted})
    case RenewScript(sent) =>
      var key := Renewed(w.key, w.now, sent, ttl);
      w.(key := key, clients := if key == w.key then w.clients else Granted(w.clients, sent, w.now + ttl))
    case Leave(c) => if c in w.clients then w.(clients := w.clients[c := Outside]) else w
    case ReleaseScript(sent) => if HeldInside(w, sent) then w else w.(key := Released(w.key, w.now, sent))
    case Elapse(ms) => w.(now := w.now + ms)
  }

  ghost function Run(w: World, actions: seq<Action>, ttl: int): (r: World)
    decreases |actions|
  {
    if actions == [] then w else Step(Run(w, actions[..|actions| - 1], ttl), actions[|actions| - 1], ttl)
  }

  /** The client is inside its function and its lease has not run out. */
  ghost predicate Holds(w: World, c: nat) {
    c in w.clients && w.clients[c].Inside? && w.now < w.clients[c].leaseEnd
  }

  ghost predicate SameToken(a: Client, b: Client) {
    a.Inside? && b.Inside? && a.token == b.token
  }

  ghost predicate Inv(w: World, ttl: int) {
    && (w.key.Some? ==> w.key.value.token in w.issued)
    && (forall c :: c in w.clients && w.clients[c].Inside? ==> w.clients[c].token in w.issued)
    && (forall c :: c in w.clients && w.clients[c].Inside? ==> w.clients[c].leaseEnd <= w.now + ttl)
    && (forall c, d :: c in w.clients && d in w.clients && SameToken(w.clients[c], w.clients[d]) ==> c == d)
    && (forall c :: Holds(w, c) ==> w.key == Some(Entry(w.clients[c].token, w.clients[c].leaseEnd)))
  }

  lemma EnterKeepsInv(w: World, c: nat, minted: nat, ttl: int)
    requires Inv(w, ttl)
    ensures Inv(Step(w, Enter(c, minted), ttl), ttl)
  {
    var next := Step(w, Enter(c, minted), ttl);
    if !Live(w.key, w.now) {
      assert forall d :: !Holds(w, d);
    }
    forall d | Holds(next, d) ensures next.key == Some(Entry(next.clients[d].token, next.clients[d].leaseEnd)) {
      assert d == c || Holds(w, d);
    }
  }

  lemma ReleaseKeepsInv(w: World, sent: nat, ttl: int)
    requires Inv(w, ttl)
    ensures Inv(Step(w, ReleaseScript(sent), ttl), ttl)
  {
    var next := Step(w, ReleaseScript(sent), ttl);
    forall d | Holds(next, d) ensures next.key == w.key {
      assert Holds(w, d);
      if w.clients[d].token == sent {
        assert HeldInside(w, sent);
      }
    }
  }

  lemma RenewKeepsInv(w: World, sent: nat, ttl: int)
    requires Inv(w, ttl)
    ensures Inv(Step(w, RenewScript(sent), ttl), ttl)
  {
    var next := Step(w, RenewScript(sent), ttl);
    forall d | Holds(next, d) ensures next.key == Some(Entry(next.clients[d].token, next.clients[d].leaseEnd)) {
      assert d in w.clients && w.clients[d].Inside?;
      if w.clients[d].token != sent {
        assert Holds(w, d);
      }
    }
  }

  lemma StepKeepsInv(w: World, a: Action, ttl: int)
    requires Inv(w, ttl)
    ensures Inv(Step(w, a, ttl), ttl)
  {
    match a {
      case Enter(c, minted) => EnterKeepsInv(w, c, minted, ttl);
      case RenewScript(sent) => RenewKeepsInv(w, sent, ttl);
      case ReleaseScript(sent) => ReleaseKeepsInv(w, sent, ttl);
      case Leave(c) =>
        assert forall d :: Holds(Step(w, a, ttl), d) ==> Holds(w, d);
      case Elapse(_) =>
        assert forall d :: Holds(Step(w, a, ttl), d) ==> Holds(w, d);
    }
  }

  ghost predicate Start(w: World) {
    w.key == None && w.issued == {} && forall c :: c in w.clients ==> w.clients[c] == Outside
  }

  lemma {:induction false} InvHolds(w: World, actions: seq<Action>, ttl: int)
    requires Start(w)
    ensures Inv(Run(w, actions, ttl), ttl)
    decreases |actions|
  {
    if actions != [] {
      InvHolds(w, actions[..|actions| - 1], ttl);
      StepKeepsInv(Run(w, actions[..|actions| - 1], ttl), actions[|actions| - 1], ttl);
    }
  }

  /** Lease safety: in every interleaving of acquisitions, renewals, releases, departures and the
      passing of time, at most one client is inside its function with an unexpired lease. */
  lemma AtMostOneHolder(w: World, actions: seq<Action>, ttl: int, c: nat, d: nat)
    requires Start(w)
    requires Holds(Run(w, actions, ttl), c) && Holds(Run(w, actions, ttl), d)
    ensures c == d
  {
    InvHolds(w, actions, ttl);
  }

  /** No step but the holder's own departure and the passing of time ends a holder's tenure: a late
      release or renewal by an old holder leaves its key alone, nobody else gets in, and its own
      renewal only extends the lease. */
  lemma HolderIsUndisturbed(w: World, actions: seq<Action>, ttl: int, c: nat, a: Action)
    requires Start(w) && Holds(Run(w, actions, ttl), c)
    requires a != Leave(c) && !a.Elapse?
    ensures var now, next := Run(w, actions, ttl), Step(Run(w, actions, ttl), a, ttl);
      && (a != RenewScript(now.clients[c].token) ==> next.key == now.key && next.clients[c] == now.clients[c])
      && (a == RenewScript(now.clients[c].token) ==>
            next.key == Some(Entry(now.clients[c].token, now.now + ttl))
                && next.clients[c] == Inside(now.clients[c].token, now.now + ttl))
      && (forall d :: d in now.clients && d != c && now.clients[d] == Outside ==> next.clients[d] == Outside)
  {
    InvHolds(w, actions, ttl);
    var now := Run(w, actions, ttl);
    if a == ReleaseScript(now.clients[c].token) {
      assert HeldInside(now, a.sent);
    }
  }

  /** The tenure of c has not been disturbed between two states. */
  ghost predicate StillAlone(was: World, now: World, c: nat) {
    && Holds(now, c) && c in was.clients && was.clients[c].Inside? && was.clients[c].leaseEnd <= now.clients[c].leaseEnd
    && forall d :: d in was.clients && d != c && was.clients[d] == Outside ==>
        d in now.clients && now.clients[d] == Outside
  }

  lemma StepKeepsAlone(was: World, now: World, a: Action, ttl: int, c: nat)
    requires Inv(now, ttl) && StillAlone(was, now, c) && a != Leave(c)
    requires Step(now, a, ttl).now < was.clients[c].leaseEnd
    ensures StillAlone(was, Step(now, a, ttl), c)
  {
  }

  lemma TimeMovesOn(w: World, a: Action, ttl: int)
    ensures w.now <= Step(w, a, ttl).now
  {
  }

  lemma {:induction false} ExclusiveFrom(was: World, more: seq<Action>, ttl: int, c: nat)
    requires Inv(was, ttl) && Holds(was, c) && Leave(c) !in more
    requires Run(was, more, ttl).now < was.clients[c].leaseEnd
    ensures Inv(Run(was, more, ttl), ttl) && StillAlone(was, Run(was, more, ttl), c)
    decreases |more|
  {
    if more != [] {
      var init, a := more[..|more| - 1], more[|more| - 1];
      assert a in more && forall x :: x in init ==> x in more;
      var now := Run(was, init, ttl);
      TimeMovesOn(now, a, ttl);
      ExclusiveFrom(was, init, ttl, c);
      StepKeepsInv(now, a, ttl);
      StepKeepsAlone(was, now, a, ttl, c);
    }
  }

  /** A whole tenure is exclusive: as long as the holder does not leave and the clock has not
      reached the end of its lease, it stays the holder and no client that was outside gets in,
      whatever the others do. */
  lemma TenureIsExclusive(w: World, actions: seq<Action>, more: seq<Action>, ttl: int, c: nat)
    requires Start(w) && Holds(Run(w, actions, ttl), c) && Leave(c) !in more
    requires Run(Run(w, actions, ttl), more, ttl).now < Run(w, actions, ttl).clients[c].leaseEnd
    ensures StillAlone(Run(w, actions, ttl), Run(Run(w, actions, ttl), more, ttl), c)
  {
    InvHolds(w, actions, ttl);
    ExclusiveFrom(Run(w, actions, ttl), more, ttl, c);
  }

  // ---------------------------------------------------------------------------------------
  // The lock comes free
  // ---------------------------------------------------------------------------------------

  ghost predicate MayTry(w: World, d: nat, minted: nat) {
    d in w.clients && w.clients[d] == Outside && minted !in w.issued
  }

  /** A client gets in if and only if there is no key or the key has run out; it then holds the lock for
      one ttl, and nobody else has moved. */
  lemma EntersIffFree(w: World, d: nat, minted: nat, ttl: int)
    requires MayTry(w, d, minted)
    ensures var next := Step(w, Enter(d, minted), ttl);
      && (next.clients[d].Inside? <==> w.key.None? || w.key.value.expiresAt <= w.now)
      && (next.clients[d].Inside? ==> next.clients[d] == Inside(minted, w.now + ttl)
                                      && next.key == Some(Entry(minted, w.now + ttl)))
      && next.now == w.now && forall c :: c in w.clients && c != d ==> next.clients[c] == w.clients[c]
  {
  }

  /** An owner's release frees the key: from every reachable state whose key holds the token that is sent,
      with no client inside under that token, the next client to try holds the lock. */
  lemma ReleaseFrees(w: World, actions: seq<Action>, ttl: int, sent: nat, d: nat, minted: nat)
    requires Start(w) && ttl > 0
    requires var now := Run(w, actions, ttl);
      now.key.Some? && now.key.value.token == sent && !HeldInside(now, sent) && MayTry(now, d, minted)
    ensures var now := Run(w, actions, ttl);
      Holds(Step(Step(now, ReleaseScript(sent), ttl), Enter(d, minted), ttl), d)
  {
    EntersIffFree(Step(Run(w, actions, ttl), ReleaseScript(sent), ttl), d, minted, ttl);
  }

  /** So a holder that leaves and releases hands the lock over at once. */
  lemma LeavingHandsOver(w: World, actions: seq<Action>, ttl: int, c: nat, d: nat, minted: nat)
    requires Start(w) && ttl > 0
    requires var now := Run(w, actions, ttl); Holds(now, c) && d != c && MayTry(now, d, minted)
    ensures var now := Run(w, actions, ttl);
      var released := Step(Step(now, Leave(c), ttl), ReleaseScript(now.clients[c].token), ttl);
      released.key.None? && Holds(Step(released, Enter(d, minted), ttl), d)
  {
    InvHolds(w, actions, ttl);
    var now := Run(w, actions, ttl);
    var left := Step(now, Leave(c), ttl);
    assert !HeldInside(left, now.clients[c].token) by {
      assert forall x :: x in left.clients && left.clients[x].Inside? ==> x != c && left.clients[x] == now.clients[x];
    }
    EntersIffFree(Step(left, ReleaseScript(now.clients[c].token), ttl), d, minted, ttl);
  }

  /** A holder that neither renews nor releases loses the lock when its lease has run out, and not before. */
  lemma LeaseRunsOut(w: World, actions: seq<Action>, ttl: int, c: nat, ms: nat, d: nat, minted: nat)
    requires Start(w) && ttl > 0
    requires var now := Run(w, actions, ttl); Holds(now, c) && d != c && MayTry(now, d, minted)
    ensures var now := Run(w, actions, ttl);
      var later := Step(now, Elapse(ms), ttl);
      && (Holds(later, c) <==> now.now + ms < now.clients[c].leaseEnd)
      && (Holds(Step(later, Enter(d, minted), ttl), d) <==> now.clients[c].leaseEnd <= now.now + ms)
  {
    InvHolds(w, actions, ttl);
    EntersIffFree(Step(Run(w, actions, ttl), Elapse(ms), ttl), d, minted, ttl);
  }

  /** On the locks themselves: what one holder took and released, another can take, and in between it could
      not. */
  method HandOver(a: Lock, b: Lock, mine: nat, theirs: nat) returns (taken: bool, meanwhile: bool, after: bool)
    requires a != b && a.store == b.store && a.ttl > 0 && b.ttl > 0
    modifies a, b, a.store`key
    ensures taken <==> old(a.store.key).None? || old(a.store.key).value.expiresAt <= a.store.now
    ensures !meanwhile
    ensures taken ==> after && b.token == Some(theirs) && a.token == None
    ensures taken ==> a.store.key == Some(Entry(theirs, a.store.now + b.ttl))
  {
    taken := a.Acquire(Some(mine), true);
    meanwhile := b.Acquire(Some(theirs), true);
    a.Release(true);
    after := b.Acquire(Some(theirs), true);
  }
}
