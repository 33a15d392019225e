/**
Whole runs of the indexer: the engine polls and the reconciler catches up on the same cursor row and
the same event table, in any order, while the environment swaps branches.

A poll and one ledger of a reconciler cycle are the steps; between any two steps the chain may change.
 */
module Runs {
  import opened Ledgers
  import opened Reorg
  import opened Cursors
  import opened Wrappers
  import opened Engine
  import opened Guards
  import opened Delivery
  import opened Reconciler
  import LH = LedgerHistory

  /** position is the reconciler's own place in its current cycle, reconciled its deduplicator. */
  datatype Indexer = Indexer(engine: State, position: Option<nat>, reconciled: set<string>)

  /** The world while the reconciler visits one ledger. */
  datatype Look = Look(chain: seq<Ledger>, txs: seq<Tx>, expired: set<string>, updateOk: bool)

  datatype Act =
    | PollsOnce(e: Env)
    | BeginsCycle
    | CatchesUp(look: Look)

  /** The ledger that the reconciler visits next, if the chain has it. */
  ghost predicate HasNext(x: Indexer, look: Look) {
    x.position.Some? && x.position.value < |look.chain|
  }

  ghost function CatchUp(x: Indexer, look: Look): (r: Indexer) {
    if !HasNext(x, look) then x.(position := None)
    else
      var l := look.chain[x.position.value];
      var d := CaughtUp(Desk(x.engine.row, x.engine.rows, x.reconciled - look.expired), l, look.txs, look.updateOk);
      Indexer(x.engine.(row := d.row, rows := d.rows),
              if look.updateOk && d.row.Some? then Some(l.sequence) else None, d.seen)
  }

  ghost function Next(x: Indexer, window: nat, a: Act): (r: Indexer) {
    match a
    case PollsOnce(e) => x.(engine := Poll(x.engine, window, e).0)
    case BeginsCycle => x.(position := x.engine.row)
    case CatchesUp(look) => CatchUp(x, look)
  }

  ghost function Run(x: Indexer, window: nat, acts: seq<Act>): (r: Indexer)
    decreases |acts|
  {
    if acts == [] then x else Next(Run(x, window, acts[..|acts| - 1]), window, acts[|acts| - 1])
  }

  ghost predicate IsFrom(r: Row, l: Ledger) {
    r.ledger == l.sequence && r.branch == l.hash
  }

  lemma CatchUpKeeps(x: Indexer, look: Look)
    ensures var next := CatchUp(x, look);
      && next.engine.history == x.engine.history && x.engine.rows <= next.engine.rows
      && (x.engine.row.Some? ==> next.engine.row.Some? && x.engine.row.value <= next.engine.row.value)
      && (HasNext(x, look) ==>
            && (forall r :: r in next.engine.rows && r !in x.engine.rows ==> IsFrom(r, look.chain[x.position.value]))
            && (look.updateOk && x.engine.row.Some? ==>
                  next.engine.row.value == Max(x.engine.row.value, look.chain[x.position.value].sequence)))
      && (!HasNext(x, look) ==> next.engine == x.engine)
  {
    if HasNext(x, look) {
      DeliverKeeps(Sink(x.engine.rows, x.reconciled - look.expired), look.chain[x.position.value], look.txs);
    }
  }

  // ---------------------------------------------------------------------------------------
  // A cycle among other writers
  // ---------------------------------------------------------------------------------------

  lemma PollKeepsARow(st: State, window: nat, e: Env)
    requires st.row.Some?
    ensures Poll(st, window, e).0.row.Some?
  {
    PollUnfolds(st, window, e, st.row.value);
    var res := CheckReorg(st.(seen := st.seen - e.expired), window, e, st.row.value);
    VisitAllKeepsRow(res.0, window, FetchLedgers(e.chain, res.2, e.batchSize), e.txns);
  }

  /** A visit whose checkpoint fails, or that finds no ledger, ends the cycle and leaves the row alone. */
  lemma FailedVisitEndsCycle(x: Indexer, look: Look)
    requires !look.updateOk || !HasNext(x, look)
    ensures CatchUp(x, look).position == None && CatchUp(x, look).engine.row == x.engine.row
  {
  }

  /** How many ledgers the reconciler visits in a run. */
  ghost function Visits(acts: seq<Act>): (n: nat) {
    if acts == [] then 0 else Visits(acts[..|acts| - 1]) + if acts[|acts| - 1].CatchesUp? then 1 else 0
  }

  /** The acts of one cycle that goes on from a position, and of the engine meanwhile: each visit finds a
      ledger and keeps its checkpoint. */
  ghost predicate OneCycle(acts: seq<Act>, position: nat)
    decreases |acts|
  {
    acts == [] ||
    var init, a := acts[..|acts| - 1], acts[|acts| - 1];
    && OneCycle(init, position) && !a.BeginsCycle?
    && (a.CatchesUp? ==>
          a.look.updateOk && Numbered(a.look.chain, 0) && position + Visits(init) < |a.look.chain|)
  }

  lemma {:induction false} CycleGoesOn(x: Indexer, window: nat, acts: seq<Act>, position: nat)
    requires x.engine.row.Some? && x.position == Some(position) && OneCycle(acts, position)
    ensures Run(x, window, acts).engine.row.Some?
    ensures Run(x, window, acts).position == Some(position + Visits(acts))
    decreases |acts|
  {
    if acts != [] {
      var init, a := acts[..|acts| - 1], acts[|acts| - 1];
      CycleGoesOn(x, window, init, position);
      var now := Run(x, window, init);
      if a.PollsOnce? {
        PollKeepsARow(now.engine, window, a.e);
      } else if a.CatchesUp? {
        CatchUpKeeps(now, a.look);
      }
    }
  }

  /** Whatever other writers do to the row meanwhile, rewinds included, the visits of a cycle are the
      consecutive ledgers after the cursor that it began with, in order. */
  lemma CycleIsUndisturbed(x: Indexer, window: nat, acts: seq<Act>, cursor: nat)
    requires x.engine.row == Some(cursor) && OneCycle(acts, cursor)
    ensures var begun := Next(x, window, BeginsCycle);
      begun.engine == x.engine && Run(begun, window, acts).position == Some(cursor + Visits(acts))
  {
    CycleGoesOn(Next(x, window, BeginsCycle), window, acts, cursor);
  }

  // ---------------------------------------------------------------------------------------
  // A repaired indexer stays repaired while the chain only grows
  // ---------------------------------------------------------------------------------------

  /** The chain of the latest poll. */
  ghost function LastChain(base: seq<Ledger>, acts: seq<Act>): (chain: seq<Ledger>)
    decreases |acts|
  {
    if acts == [] then base
    else
      var a := acts[|acts| - 1];
      if a.PollsOnce? then a.e.chain else LastChain(base, acts[..|acts| - 1])
  }

  /** The chain of each poll extends the one of the poll before it, the first extends base. */
  ghost predicate Extending(base: seq<Ledger>, acts: seq<Act>)
    decreases |acts|
  {
    acts == [] ||
    var init, a := acts[..|acts| - 1], acts[|acts| - 1];
    && Extending(base, init)
    && (a.PollsOnce? ==> LastChain(base, init) <= a.e.chain && Numbered(a.e.chain, 0))
  }

  lemma {:induction false} RunStaysOnChain(x: Indexer, window: nat, base: seq<Ledger>, acts: seq<Act>)
    requires OnChain(x.engine.history, base) && Extending(base, acts)
    ensures OnChain(Run(x, window, acts).engine.history, LastChain(base, acts))
    decreases |acts|
  {
    if acts != [] {
      var init, a := acts[..|acts| - 1], acts[|acts| - 1];
      RunStaysOnChain(x, window, base, init);
      if a.PollsOnce? {
        PollStaysOnChain(Run(x, window, init).engine, window, a.e);
      } else if a.CatchesUp? {
        CatchUpKeeps(Run(x, window, init), a.look);
      }
    }
  }

  /** Once the recorded hashes are canonical, and for as long as the chain only grows, every later
      reorg check finds nothing, whatever fails in between and wherever the cursor stands. */
  lemma SettledStaysSettled(x: Indexer, window: nat, base: seq<Ledger>, acts: seq<Act>, chain: seq<Ledger>, cursor: nat)
    requires OnChain(x.engine.history, base) && Extending(base, acts)
    requires Numbered(chain, 0) && LastChain(base, acts) <= chain
    ensures Detect(Run(x, window, acts).engine.history, window, chain, true, cursor) == Consistent
  {
    RunStaysOnChain(x, window, base, acts);
    OnChainIsConsistent(Run(x, window, acts).engine.history, window, chain, cursor);
  }

  lemma PollFromStaysOnChain(st: State, window: nat, e: Env, res: (State, Outcome, nat))
    requires OnChain(res.0.history, e.chain) && Numbered(e.chain, 0)
    ensures OnChain(PollFrom(st, window, e, res).0.history, e.chain)
  {
    FetchedPage(e.chain, res.2, e.batchSize);
    VisitAllStaysOnChain(res.0, window, FetchLedgers(e.chain, res.2, e.batchSize), e.txns, e.chain);
  }

  /** The check of the poll leaves canonical hashes only. */
  ghost predicate CheckedOnChain(st: State, window: nat, e: Env, cursor: nat) {
    && st.row == Some(cursor) && e.readOk && Numbered(e.chain, 0)
    && OnChain(CheckReorg(st, window, e, cursor).0.history, e.chain)
  }

  /** The whole poll leaves canonical hashes only. */
  ghost predicate PolledOnChain(st: State, window: nat, e: Env) {
    OnChain(Poll(st, window, e).0.history, e.chain)
  }

  /** The check looks at no deduplicator, and the replay records hashes of the chain. */
  lemma PollAfterCheckIsOnChain(st: State, window: nat, e: Env, cursor: nat)
    ensures CheckedOnChain(st, window, e, cursor) ==> PolledOnChain(st, window, e)
  {
    if CheckedOnChain(st, window, e, cursor) {
      var st1 := st.(seen := st.seen - e.expired);
      PollUnfolds(st, window, e, cursor);
      PollFromStaysOnChain(st1, window, e, CheckReorg(st1, window, e, cursor));
    }
  }

  /** The check of the poll completes, and cuts the recorded hashes on the chain. */
  ghost predicate CutsOnChain(st: State, window: nat, e: Env, cursor: nat) {
    && st.row == Some(cursor) && e.readOk && e.windowOk && e.deleteOk && e.rewindOk && Numbered(e.chain, 0)
    && CutOnChain(st.history, Detect(st.history, window, e.chain, true, cursor), e.chain)
  }

  lemma CutPollsOnChain(st: State, window: nat, e: Env, cursor: nat)
    requires CutsOnChain(st, window, e, cursor)
    ensures PolledOnChain(st, window, e)
  {
    PollAfterCheckIsOnChain(st, window, e, cursor);
  }

  lemma ForkPollsOnChain(st: State, window: nat, e: Env, r: Check, ix: seq<Ledger>, start: nat)
    requires st.row == Some(start + |ix|) && RecordedFrom(st.history, ix, start) && Numbered(e.chain, 0)
    requires e.readOk && e.windowOk && e.deleteOk && e.rewindOk
    requires r == Detect(st.history, window, e.chain, true, start + |ix|)
    requires r.Plan? && IsFork(ix, start, e.chain, r.forkLedger)
    ensures PolledOnChain(st, window, e)
  {
    ForkCutsOnChain(st.history, r, ix, start, e.chain);
    CutPollsOnChain(st, window, e, start + |ix|);
  }

  /** The poll that repairs a fork leaves canonical hashes only, however its replay ends. */
  lemma RepairingPollIsOnChain(st: State, window: nat, e: Env, ix: seq<Ledger>, start: nat, world: set<Ledger>, f: nat)
    requires Forked(st, window, e, ix, start, world, f)
    ensures PolledOnChain(st, window, e)
  {
    DetectionIsExact(st.history, window, ix, start, e.chain, world);
    ForkPollsOnChain(st, window, e, Detect(st.history, window, e.chain, true, start + |ix|), ix, start);
  }

  lemma SettledAfterPoll(x: Indexer, window: nat, e: Env, acts: seq<Act>, chain: seq<Ledger>, cursor: nat)
    requires PolledOnChain(x.engine, window, e) && Extending(e.chain, acts)
    requires Numbered(chain, 0) && LastChain(e.chain, acts) <= chain
    ensures SilentAfter(x, window, e, acts, chain, cursor)
  {
    SettledStaysSettled(Next(x, window, PollsOnce(e)), window, e.chain, acts, chain, cursor);
  }

  /** After a poll and a run the check of the chain at the cursor finds nothing. */
  ghost predicate SilentAfter(x: Indexer, window: nat, e: Env, acts: seq<Act>, chain: seq<Ledger>, cursor: nat) {
    Detect(Run(Next(x, window, PollsOnce(e)), window, acts).engine.history, window, chain, true, cursor) == Consistent
  }

  /** One repair suffices: from any state with a fork inside a covered window, after the one poll that
      meets the fork no later check finds anything, for as long as the chain only grows, whatever fails
      and whatever the reconciler does in between. */
  lemma OneRepairSuffices(x: Indexer, window: nat, e: Env, ix: seq<Ledger>, start: nat, world: set<Ledger>, f: nat,
                          acts: seq<Act>, chain: seq<Ledger>, cursor: nat)
    requires Forked(x.engine, window, e, ix, start, world, f) && Extending(e.chain, acts)
    requires Numbered(chain, 0) && LastChain(e.chain, acts) <= chain
    ensures SilentAfter(x, window, e, acts, chain, cursor)
  {
    RepairingPollIsOnChain(x.engine, window, e, ix, start, world, f);
    SettledAfterPoll(x, window, e, acts, chain, cursor);
  }

  // ---------------------------------------------------------------------------------------
  // Deliveries of both processes
  // ---------------------------------------------------------------------------------------

  /** The sink that an act writes to, before and after it delivers, with the first occurrences on it. */
  lemma CatchUpIsExact(x: Indexer, look: Look)
    requires HasNext(x, look)
    ensures var next := CatchUp(x, look);
      DeliversExactly(Sink(x.engine.rows, x.reconciled - look.expired), Sink(next.engine.rows, next.reconciled),
                      hash => FirstAt(look.chain[x.position.value], look.txs, hash))
  {
    DeliverIsExact(Sink(x.engine.rows, x.reconciled - look.expired), look.chain[x.position.value], look.txs);
  }

  lemma DeliveryKeepsKeys(sink: Sink, d: Sink, first: string -> Option<Occurrence>)
    requires DeliversExactly(sink, d, first) && Keyed(sink.rows)
    ensures Keyed(d.rows)
  {
  }

  /** The check of a poll stores nothing and leaves the deduplicator alone. */
  lemma CheckRemoves(st: State, window: nat, e: Env)
    requires st.row.Some?
    ensures Checked(st, window, e).0.rows <= st.rows && Checked(st, window, e).0.seen == st.seen - e.expired
  {
  }

  lemma PollKeepsKeys(st: State, window: nat, e: Env)
    requires Keyed(st.rows)
    ensures Keyed(Poll(st, window, e).0.rows)
  {
    if st.row.Some? && e.readOk {
      CheckRemoves(st, window, e);
      PollDeliversExactly(st, window, e);
      DeliveryKeepsKeys(SinkOf(Checked(st, window, e).0), SinkOf(Poll(st, window, e).0),
                        hash => FirstOn(PageOf(st, window, e), e.txns, hash));
    }
  }

  /** Across all polls, rollbacks, replays and reconciler cycles, with both deduplicators forgetting as
      they like, every event of a transaction has at most one row. */
  lemma {:induction false} OneRowPerEvent(x: Indexer, window: nat, acts: seq<Act>)
    requires Keyed(x.engine.rows)
    ensures Keyed(Run(x, window, acts).engine.rows)
    decreases |acts|
  {
    if acts != [] {
      var init, a := acts[..|acts| - 1], acts[|acts| - 1];
      OneRowPerEvent(x, window, init);
      var now := Run(x, window, init);
      if a.PollsOnce? {
        PollKeepsKeys(now.engine, window, a.e);
      } else if a.CatchesUp? && HasNext(now, a.look) {
        CatchUpIsExact(now, a.look);
        DeliveryKeepsKeys(Sink(now.engine.rows, now.reconciled - a.look.expired),
                          Sink(CatchUp(now, a.look).engine.rows, CatchUp(now, a.look).reconciled),
                          hash => FirstAt(a.look.chain[now.position.value], a.look.txs, hash));
      }
    }
  }

  /** Both deduplicators know the transaction, and its event has no row. */
  ghost predicate Lost(x: Indexer, hash: string, event: string) {
    hash in x.engine.seen && hash in x.reconciled && !Taken(x.engine.rows, hash, event)
  }

  ghost predicate Forgets(a: Act, hash: string) {
    match a
    case PollsOnce(e) => hash in e.expired
    case BeginsCycle => false
    case CatchesUp(look) => hash in look.expired
  }

  lemma PollKeepsLost(st: State, window: nat, e: Env, hash: string, event: string)
    requires hash in st.seen && hash !in e.expired && !Taken(st.rows, hash, event)
    ensures var next := Poll(st, window, e).0; hash in next.seen && !Taken(next.rows, hash, event)
  {
    if st.row.Some? && e.readOk {
      CheckRemoves(st, window, e);
      EventIsStoredIff(st, window, e, hash, event);
      PollDeliversExactly(st, window, e);
    }
  }

  /** A lost row stays lost until one of the deduplicators forgets the transaction, whatever is polled,
      replayed or reconciled meanwhile. */
  lemma {:induction false} LostUntilForgotten(x: Indexer, window: nat, acts: seq<Act>, hash: string, event: string)
    requires Lost(x, hash, event) && forall i :: 0 <= i < |acts| ==> !Forgets(acts[i], hash)
    ensures Lost(Run(x, window, acts), hash, event)
    decreases |acts|
  {
    if acts != [] {
      var init, a := acts[..|acts| - 1], acts[|acts| - 1];
      LostUntilForgotten(x, window, init, hash, event);
      var now := Run(x, window, init);
      if a.PollsOnce? {
        PollKeepsLost(now.engine, window, a.e, hash, event);
      } else if a.CatchesUp? && HasNext(now, a.look) {
        CatchUpIsExact(now, a.look);
      }
    }
  }
}
