/**
Safety of whole runs of the engine and the reconciler over changing branches.
 */
module Safety {
  import opened Ledgers
  import opened Reorg
  import opened Cursors
  import opened Wrappers
  import opened Engine
  import opened Guards
  import opened Runs
  import LH = LedgerHistory

  /** No recorded ledger and no row above the cursor. */
  ghost predicate Bounded(st: State, start: nat, cursor: nat) {
    && (forall s :: s in st.history ==> s <= cursor)
    && (forall r :: r in st.rows && start < r.ledger ==> r.ledger <= cursor)
  }

  /** As far as the chain goes, the rows and the hashes that vouch for them are its own. */
  ghost predicate AgreesWith(st: State, start: nat, chain: seq<Ledger>) {
    NoAbandonedRow(st.rows, start, chain) && VouchersAgree(st, start, chain)
  }

  /** The state follows the chain full and agrees with the chain known. */
  ghost predicate Inv(st: State, start: nat, known: seq<Ledger>, full: seq<Ledger>, world: set<Ledger>) {
    && st.row.Some? && Bounded(st, start, st.row.value)
    && Linked(full, 0) && Within(full, world) && Follows(st, start, full)
    && AgreesWith(st, start, known)
  }

  /** Fewer rows and fewer hashes. */
  ghost predicate Shrinks(st: State, next: State) {
    && next.rows <= st.rows
    && forall s :: s in next.history ==> s in st.history && next.history[s] == st.history[s]
  }

  lemma ShrinkingKeeps(st: State, next: State, start: nat, chain: seq<Ledger>)
    requires Shrinks(st, next)
    ensures Follows(st, start, chain) ==> Follows(next, start, chain)
    ensures AgreesWith(st, start, chain) ==> AgreesWith(next, start, chain)
  {
    assert forall s: nat :: Live(next, start, s) ==> Live(st, start, s);
  }

  lemma BoundedFollows(st: State, start: nat, cursor: nat, chain: seq<Ledger>)
    requires Bounded(st, start, cursor) && cursor <= |chain| && AgreesWith(st, start, chain)
    ensures Follows(st, start, chain)
  {
  }

  lemma FollowsAgrees(st: State, start: nat, chain: seq<Ledger>, longer: seq<Ledger>)
    requires Follows(st, start, chain) && chain <= longer
    ensures Follows(st, start, longer) && AgreesWith(st, start, longer)
  {
  }

  // ---------------------------------------------------------------------------------------
  // Visiting a page of the chain
  // ---------------------------------------------------------------------------------------

  ghost predicate KeysUpTo(h: map<nat, string>, cursor: nat) {
    forall s :: s in h ==> s <= cursor
  }

  lemma VisitFollows(st: State, window: nat, l: Ledger, txns: map<nat, seq<Tx>>, start: nat, chain: seq<Ledger>,
                     cursor: nat)
    requires Follows(st, start, chain) && KeysUpTo(st.history, cursor)
    requires cursor < |chain| && l == chain[cursor] && l.sequence == cursor + 1
    ensures var v := Visit(st, window, l, txns);
      && v.row == st.row && Follows(v, start, chain) && KeysUpTo(v.history, cursor + 1)
      && forall r :: r in v.rows && r !in st.rows ==> r.ledger == cursor + 1
  {
    var v := Visit(st, window, l, txns);
    DeliverKeeps(Sink(st.rows, st.seen), l, TxsOf(txns, l));
    forall s: nat | Live(v, start, s) ensures s <= |chain| && v.history[s] == chain[s - 1].hash {
      if s != l.sequence || v.history[s] != l.hash {
        var r :| r in v.rows && start < r.ledger <= s;
        assert Live(st, start, s);
      }
    }
  }

  /** Visiting the next ledgers of the chain that is followed, from a cursor that nothing recorded exceeds;
      rows may lie beyond it. */
  lemma {:induction false} VisitAllFollows(st: State, window: nat, page: seq<Ledger>, txns: map<nat, seq<Tx>>,
                                           start: nat, chain: seq<Ledger>, cursor: nat)
    requires Follows(st, start, chain) && KeysUpTo(st.history, cursor) && cursor + |page| <= |chain|
    requires Numbered(page, cursor) && forall i :: 0 <= i < |page| ==> page[i] == chain[cursor + i]
    ensures var v := VisitAll(st, window, page, txns);
      && v.row == st.row && Follows(v, start, chain) && KeysUpTo(v.history, cursor + |page|)
      && forall r :: r in v.rows && r !in st.rows ==> r.ledger <= cursor + |page|
  {
    if page != [] {
      var init, l := page[..|page| - 1], page[|page| - 1];
      VisitAllFollows(st, window, init, txns, start, chain, cursor);
      VisitFollows(VisitAll(st, window, init, txns), window, l, txns, start, chain, cursor + |init|);
    }
  }

  // ---------------------------------------------------------------------------------------
  // One poll
  // ---------------------------------------------------------------------------------------

  /** The poll completes on a chain that reaches the reorg window. */
  ghost predicate Completes(st: State, window: nat, e: Env) {
    st.row.Some? && Poll(st, window, e).1 == Done && WindowStart(st.row.value, window) <= |e.chain|
  }

  /** The chain only grew since the rows were last known to agree with it. */
  ghost predicate Extends(st: State, known: seq<Ledger>, chain: seq<Ledger>) {
    st.row.Some? && st.row.value <= |known| && known <= chain
  }

  ghost predicate SafePoll(st: State, window: nat, start: nat, known: seq<Ledger>, e: Env) {
    && (Guarded(st, window, start) || Extends(st, known, e.chain))
    && Poll(st, window, e).1 != CheckpointFailed
  }

  lemma ExtensionAgrees(st: State, start: nat, known: seq<Ledger>, chain: seq<Ledger>)
    requires Extends(st, known, chain) && Bounded(st, start, st.row.value) && AgreesWith(st, start, known)
    ensures Follows(st, start, chain) && AgreesWith(st, start, chain)
  {
    BoundedFollows(st, start, st.row.value, known);
    FollowsAgrees(st, start, known, chain);
  }

  /** What the check of a poll leaves, and where it leaves the cursor. */
  ghost predicate CheckedOff(st: State, window: nat, e: Env, start: nat, res: (State, Outcome, nat))
    requires st.row.Some?
  {
    && Shrinks(st, res.0) && res.0.row.Some? && Bounded(res.0, start, res.0.row.value)
    && res.1 != CheckpointFailed
    && (res.1 == Done ==>
          && res.0.row == Some(res.2) && res.2 <= st.row.value
          && (WindowStart(st.row.value, window) <= |e.chain| ==> AgreesWith(res.0, start, e.chain))
          && (WindowStart(st.row.value, window) > |e.chain| ==> res.0 == st))
  }

  lemma CheckShrinks(st: State, window: nat, e: Env, start: nat)
    requires window > 0 && st.row.Some? && Bounded(st, start, st.row.value) && Numbered(e.chain, 0)
    ensures var res := CheckReorg(st, window, e, st.row.value);
      && Shrinks(st, res.0) && res.0.row.Some? && Bounded(res.0, start, res.0.row.value)
      && res.1 != CheckpointFailed
      && (res.1 == Done ==> res.0.row == Some(res.2) && res.2 <= st.row.value)
      && (res.1 == Done && WindowStart(st.row.value, window) > |e.chain| ==> res.0 == st)
  {
    if CheckReorg(st, window, e, st.row.value).1 == Done {
      CheckCompletes(st, window, e, st.row.value);
    }
  }

  lemma CheckIsSafe(st: State, window: nat, e: Env, start: nat, known: seq<Ledger>, full: seq<Ledger>,
                    world: set<Ledger>)
    requires window > 0 && Inv(st, start, known, full, world) && TwoBranches(full, 0, e.chain, world)
    requires Guarded(st, window, start) || Extends(st, known, e.chain)
    ensures CheckedOff(st, window, e, start, CheckReorg(st, window, e, st.row.value))
  {
    CheckShrinks(st, window, e, start);
    var res := CheckReorg(st, window, e, st.row.value);
    if res.1 == Done && WindowStart(st.row.value, window) <= |e.chain| {
      if Guarded(st, window, start) {
        CheckRemains(st, window, e);
        RemainingRowsAgree(st, window, e, start, full, world, res.0);
        RemainingVouchersAgree(st, window, e, start, full, world, res.0);
      } else {
        ExtensionAgrees(st, start, known, e.chain);
        ShrinkingKeeps(st, res.0, start, e.chain);
      }
    }
  }

  /** The replay after a completed check follows the chain that it visits. */
  lemma ReplayFollows(st: State, window: nat, e: Env, start: nat, cursor: nat)
    requires st.row == Some(cursor) && Bounded(st, start, cursor) && AgreesWith(st, start, e.chain)
    requires Numbered(e.chain, 0) && cursor < |e.chain| && Replay(st, window, e, cursor).1 == Done
    ensures var next := Replay(st, window, e, cursor).0;
      next.row.Some? && Bounded(next, start, next.row.value) && Follows(next, start, e.chain)
  {
    var page := FetchLedgers(e.chain, cursor, e.batchSize);
    FetchedPage(e.chain, cursor, e.batchSize);
    BoundedFollows(st, start, cursor, e.chain);
    VisitAllFollows(st, window, page, e.txns, start, e.chain, cursor);
    if page != [] {
      assert page[|page| - 1].sequence == cursor + |page|;
    }
  }

  lemma ReplayOfNothing(st: State, window: nat, e: Env, cursor: nat)
    requires !e.fetchOk || |e.chain| <= cursor
    ensures Replay(st, window, e, cursor) == (st, if e.fetchOk then Done else FetchError)
  {
  }

  lemma PollFromKeepsInv(st: State, window: nat, e: Env, start: nat, known: seq<Ledger>, full: seq<Ledger>,
                         world: set<Ledger>, res: (State, Outcome, nat))
    returns (follows: seq<Ledger>)
    requires window > 0 && Inv(st, start, known, full, world) && Linked(e.chain, 0) && Within(e.chain, world)
    requires CheckedOff(st, window, e, start, res) && PollFrom(st, window, e, res).1 != CheckpointFailed
    ensures var next := PollFrom(st, window, e, res);
      Inv(next.0, start, if next.1 == Done && WindowStart(st.row.value, window) <= |e.chain| then e.chain else known,
          follows, world)
  {
    follows := full;
    ShrinkingKeeps(st, res.0, start, full);
    ShrinkingKeeps(st, res.0, start, known);
    if res.1 == Done {
      if e.fetchOk && res.2 < |e.chain| {
        ReplayFollows(res.0, window, e, start, res.2);
        follows := e.chain;
        FollowsAgrees(PollFrom(st, window, e, res).0, start, e.chain, e.chain);
      } else {
        ReplayOfNothing(res.0, window, e, res.2);
      }
    }
  }

  /** One poll keeps the invariant: from a guarded state on any chain, or from any state on a chain that
      only grew. */
  lemma PollKeepsInv(st: State, window: nat, e: Env, start: nat, known: seq<Ledger>, full: seq<Ledger>,
                     world: set<Ledger>)
    returns (follows: seq<Ledger>)
    requires window > 0 && Inv(st, start, known, full, world) && TwoBranches(full, 0, e.chain, world)
    requires SafePoll(st, window, start, known, e)
    ensures Inv(Poll(st, window, e).0, start, if Completes(st, window, e) then e.chain else known, follows, world)
  {
    follows := full;
    var st1 := st.(seen := st.seen - e.expired);
    PollUnfolds(st, window, e, st.row.value);
    ShrinkingKeeps(st, st1, start, full);
    ShrinkingKeeps(st, st1, start, known);
    if e.readOk {
      CheckIsSafe(st1, window, e, start, known, full, world);
      follows := PollFromKeepsInv(st1, window, e, start, known, full, world, CheckReorg(st1, window, e, st.row.value));
    }
  }

  // ---------------------------------------------------------------------------------------
  // One ledger of a cycle
  // ---------------------------------------------------------------------------------------

  /** Every recorded hash above a position is the chain's; nothing to ask at or above the cursor. */
  ghost predicate RecordsAbove(h: map<nat, string>, position: nat, chain: seq<Ledger>) {
    forall s :: s in h && position < s ==> s <= |chain| && h[s] == chain[s - 1].hash
  }

  /** The visit stores nothing; or the chain only grew and the hashes that were recorded beyond the
      reconciler's position are its own. A checkpoint that is lost must not have led. */
  ghost predicate SafeVisit(x: Indexer, known: seq<Ledger>, look: Look) {
    || CatchUp(x, look).engine.rows == x.engine.rows
    || (x.position.Some? && Extends(x.engine, known, look.chain)
        && RecordsAbove(x.engine.history, x.position.value, look.chain)
        && (look.updateOk || x.position.value < x.engine.row.value))
  }

  lemma CatchUpKeepsInv(x: Indexer, look: Look, start: nat, known: seq<Ledger>, full: seq<Ledger>, world: set<Ledger>)
    returns (follows: seq<Ledger>)
    requires Inv(x.engine, start, known, full, world) && SafeVisit(x, known, look)
    requires Linked(look.chain, 0) && Within(look.chain, world)
    ensures var next := CatchUp(x, look);
      Inv(next.engine, start, if next.engine.rows == x.engine.rows then known else look.chain, follows, world)
  {
    var next := CatchUp(x, look);
    CatchUpKeeps(x, look);
    if next.engine.rows == x.engine.rows {
      follows := full;
      assert Shrinks(x.engine, next.engine);
      ShrinkingKeeps(x.engine, next.engine, start, full);
      ShrinkingKeeps(x.engine, next.engine, start, known);
    } else {
      follows := look.chain;
      ExtensionAgrees(x.engine, start, known, look.chain);
      NewRowsFollow(x.engine, next.engine, start, look.chain, x.position.value);
      assert Bounded(next.engine, start, next.engine.row.value);
      FollowsAgrees(next.engine, start, look.chain, look.chain);
    }
  }

  /** Rows of one more ledger of the chain, and the hashes that come to vouch for them. */
  lemma NewRowsFollow(st: State, next: State, start: nat, chain: seq<Ledger>, position: nat)
    requires Follows(st, start, chain) && RecordsAbove(st.history, position, chain)
    requires position < |chain| && chain[position].sequence == position + 1
    requires next.history == st.history && st.rows <= next.rows
    requires forall r :: r in next.rows && r !in st.rows ==> IsFrom(r, chain[position])
    ensures Follows(next, start, chain)
  {
    forall s: nat | Live(next, start, s) ensures s <= |chain| && next.history[s] == chain[s - 1].hash {
      if s <= position {
        var r :| r in next.rows && start < r.ledger <= s;
        assert r in st.rows;
        assert Live(st, start, s);
      }
    }
  }

  // ---------------------------------------------------------------------------------------
  // Whole runs
  // ---------------------------------------------------------------------------------------

  /** The chain that the rows are known to agree with: that of the latest completed poll in reach of the
      window, or of the latest ledger whose rows the reconciler stored. */
  ghost function Known(x: Indexer, window: nat, acts: seq<Act>): (chain: seq<Ledger>)
    decreases |acts|
  {
    if acts == [] then []
    else
      var init, a := acts[..|acts| - 1], acts[|acts| - 1];
      var now := Run(x, window, init);
      match a
      case PollsOnce(e) => if Completes(now.engine, window, e) then e.chain else Known(x, window, init)
      case BeginsCycle => Known(x, window, init)
      case CatchesUp(look) =>
        if CatchUp(now, look).engine.rows == now.engine.rows then Known(x, window, init) else look.chain
  }

  ghost predicate SafeAct(x: Indexer, window: nat, start: nat, known: seq<Ledger>, a: Act) {
    match a
    case PollsOnce(e) => SafePoll(x.engine, window, start, known, e)
    case BeginsCycle => true
    case CatchesUp(look) => SafeVisit(x, known, look)
  }

  ghost predicate SafeRun(x: Indexer, window: nat, start: nat, acts: seq<Act>)
    decreases |acts|
  {
    acts == [] ||
    var init, a := acts[..|acts| - 1], acts[|acts| - 1];
    SafeRun(x, window, start, init) && SafeAct(Run(x, window, init), window, start, Known(x, window, init), a)
  }

  ghost predicate Seen(a: Act, world: set<Ledger>) {
    match a
    case PollsOnce(e) => Linked(e.chain, 0) && Within(e.chain, world)
    case BeginsCycle => true
    case CatchesUp(look) => Linked(look.chain, 0) && Within(look.chain, world)
  }

  ghost predicate HashChained(acts: seq<Act>, world: set<Ledger>) {
    CollisionFree(world) && forall i :: 0 <= i < |acts| ==> Seen(acts[i], world)
  }

  /** The indexer starts at ledger start with nothing recorded and nothing stored above it. */
  ghost predicate Starts(x: Indexer, start: nat) {
    && x.engine.row == Some(start) && x.engine.history == map[] && x.position.None?
    && forall r :: r in x.engine.rows ==> r.ledger <= start
  }

  lemma ActKeepsInv(x: Indexer, window: nat, a: Act, start: nat, known: seq<Ledger>, next: seq<Ledger>,
                    full: seq<Ledger>, world: set<Ledger>)
    returns (follows: seq<Ledger>)
    requires window > 0 && Inv(x.engine, start, known, full, world) && CollisionFree(world) && Seen(a, world)
    requires SafeAct(x, window, start, known, a)
    requires next == match a
      case PollsOnce(e) => if Completes(x.engine, window, e) then e.chain else known
      case BeginsCycle => known
      case CatchesUp(look) => if CatchUp(x, look).engine.rows == x.engine.rows then known else look.chain
    ensures Inv(Next(x, window, a).engine, start, next, follows, world)
  {
    match a
    case PollsOnce(e) => follows := PollKeepsInv(x.engine, window, e, start, known, full, world);
    case BeginsCycle => follows := full;
    case CatchesUp(look) => follows := CatchUpKeepsInv(x, look, start, known, full, world);
  }

  lemma {:induction false} RunKeepsInv(x: Indexer, window: nat, acts: seq<Act>, start: nat, world: set<Ledger>)
    returns (follows: seq<Ledger>)
    requires window > 0 && Starts(x, start) && HashChained(acts, world) && SafeRun(x, window, start, acts)
    ensures Inv(Run(x, window, acts).engine, start, Known(x, window, acts), follows, world)
    decreases |acts|
  {
    if acts == [] {
      follows := [];
    } else {
      var init, a := acts[..|acts| - 1], acts[|acts| - 1];
      var full := RunKeepsInv(x, window, init, start, world);
      follows := ActKeepsInv(Run(x, window, init), window, a, start, Known(x, window, init),
          Known(x, window, acts), full, world);
    }
  }

  /** Safety over whole runs of both processes: no row above start ever stems from a ledger that the
      known chain has abandoned, provided that every poll starts guarded or on a chain that only grew,
      that the reconciler, wherever it stands, stores rows only on a chain that only grew and whose hashes
      are recorded beyond it, and that checkpoints are kept. */
  lemma NoAbandonedEvents(x: Indexer, window: nat, acts: seq<Act>, start: nat, world: set<Ledger>)
    requires window > 0 && Starts(x, start) && HashChained(acts, world) && SafeRun(x, window, start, acts)
    ensures NoAbandonedRow(Run(x, window, acts).engine.rows, start, Known(x, window, acts))
  {
    var follows := RunKeepsInv(x, window, acts, start, world);
  }
}
