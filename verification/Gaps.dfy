/**
How the indexer comes to be unguarded: rollbacks, lost checkpoints and the reconciler.
 */
module Gaps {
  import opened Ledgers
  import opened Reorg
  import opened Wrappers
  import opened Cursors
  import opened Engine
  import opened Delivery
  import opened Guards
  import opened Swaps
  import opened Repairs
  import opened Runs
  import opened Safety
  import opened Coverage
  import LH = LedgerHistory

  // ---------------------------------------------------------------------------------------
  // Rollbacks
  // ---------------------------------------------------------------------------------------

  /** A rollback truncates the history and moves the window down. The state stays guarded if and only if
      the rows left below the old window are guarded by the new one. */
  lemma RollbackGuardsIff(st: State, window: nat, e: Env, start: nat)
    requires window > 0 && Guarded(st, window, start) && Numbered(e.chain, 0)
    requires Detect(st.history, window, e.chain, e.windowOk, st.row.value).Plan? && e.deleteOk && e.rewindOk
    ensures var fork := Detect(st.history, window, e.chain, e.windowOk, st.row.value).forkLedger;
      var from := WindowStart(fork - 1, window);
      Guarded(CheckReorg(st, window, e, st.row.value).0, window, start) <==>
        forall r :: r in st.rows && start < r.ledger < WindowStart(st.row.value, window) ==>
          if from <= r.ledger then r.ledger in st.history else from in st.history
  {
    CheckCompletes(st, window, e, st.row.value);
    var fork := Detect(st.history, window, e.chain, e.windowOk, st.row.value).forkLedger;
    assert WindowStart(fork - 1, window) <= WindowStart(st.row.value, window) < fork;
  }

  /** With nothing recorded below the old window, that is: if and only if no row is left below the oldest
      record. */
  lemma RollbackGuardsIffNoneBelow(st: State, window: nat, e: Env, start: nat, oldest: nat)
    requires window > 0 && Guarded(st, window, start) && Numbered(e.chain, 0)
    requires LH.IsLeast(oldest, st.history.Keys) && WindowStart(st.row.value, window) <= oldest
    requires Detect(st.history, window, e.chain, e.windowOk, st.row.value).Plan? && e.deleteOk && e.rewindOk
    ensures Guarded(CheckReorg(st, window, e, st.row.value).0, window, start) <==>
      forall r :: r in st.rows && start < r.ledger ==> oldest <= r.ledger
  {
    CheckCompletes(st, window, e, st.row.value);
  }

  // ---------------------------------------------------------------------------------------
  // Lost checkpoints
  // ---------------------------------------------------------------------------------------

  lemma {:induction false} VisitedRowsAreAbove(st: State, window: nat, page: seq<Ledger>, txns: map<nat, seq<Tx>>,
                                               cursor: nat)
    requires Numbered(page, cursor)
    ensures VisitAll(st, window, page, txns).row == st.row
    ensures forall r :: r in VisitAll(st, window, page, txns).rows && r !in st.rows ==>
      cursor < r.ledger <= cursor + |page|
  {
    if page != [] {
      var init, l := page[..|page| - 1], page[|page| - 1];
      VisitedRowsAreAbove(st, window, init, txns, cursor);
      var v := VisitAll(st, window, init, txns);
      DeliverKeeps(Sink(v.rows, v.seen), l, TxsOf(txns, l));
    }
  }

  /** When the checkpoint of a poll is lost, every row that the poll stored is exposed. */
  lemma LostCheckpointExposes(st: State, window: nat, e: Env, r0: Row)
    requires window > 0 && st.row.Some? && Numbered(e.chain, 0) && Poll(st, window, e).1 == CheckpointFailed
    requires r0 in Poll(st, window, e).0.rows && r0 !in Checked(st, window, e).0.rows
    ensures Poll(st, window, e).0.row.Some? && Exposed(Poll(st, window, e).0, window, r0)
  {
    PollUnfolds(st, window, e, st.row.value);
    var st1 := st.(seen := st.seen - e.expired);
    assert e.readOk;
    var res := Checked(st, window, e);
    assert res.1 == Done;
    CheckCompletes(st1, window, e, st.row.value);
    FetchedPage(e.chain, res.2, e.batchSize);
    VisitedRowsAreAbove(res.0, window, FetchLedgers(e.chain, res.2, e.batchSize), e.txns, res.2);
  }

  /** A held window guards every row between the mark and the cursor. */
  lemma HeldIsNotExposed(st: State, window: nat, mark: nat, r: Row)
    requires window > 0 && st.row.Some? && Held(st.history, window, mark, st.row.value, st.row.value)
    requires mark < r.ledger <= st.row.value
    ensures !Exposed(st, window, r)
  {
  }

  /** The page of the poll whose checkpoint was lost, and the page of the next poll of the chain. */
  lemma LongerPage(chain: seq<Ledger>, longer: seq<Ledger>, cursor: nat, limit: nat, more: nat)
    requires chain <= longer && limit <= more
    ensures |FetchLedgers(chain, cursor, limit)| <= |FetchLedgers(longer, cursor, more)|
  {
  }

  /** The state after a poll whose checkpoint was lost. */
  lemma LostPoll(st: State, window: nat, e: Env) returns (page: seq<Ledger>, cursor: nat)
    requires window > 0 && st.row.Some? && Linked(e.chain, 0) && Poll(st, window, e).1 == CheckpointFailed
    requires Held(st.history, window, st.row.value, st.row.value, st.row.value)
    ensures cursor == Checked(st, window, e).2 && page == FetchLedgers(e.chain, cursor, e.batchSize)
    ensures var lost := Poll(st, window, e).0;
      && lost.row == Some(cursor)
      && Held(lost.history, window, cursor, cursor + |page|, cursor + |page|)
      && forall r :: r in lost.rows && r !in Checked(st, window, e).0.rows ==> cursor < r.ledger <= cursor + |page|
  {
    PollUnfolds(st, window, e, st.row.value);
    var res := Checked(st, window, e);
    cursor, page := res.2, FetchLedgers(e.chain, res.2, e.batchSize);
    CheckHolds(st.(seen := st.seen - e.expired), window, e, st.row.value, st.row.value);
    FetchedPage(e.chain, cursor, e.batchSize);
    VisitedRowsAreAbove(res.0, window, page, e.txns, cursor);
    VisitAllHolds(res.0, window, page, e.txns, cursor, cursor, cursor);
  }

  /** The exposure ends with the next poll of the chain that is silent in its check, visits at least as
      far and keeps its checkpoint. */
  lemma ExposureEnds(st: State, window: nat, e: Env, again: Env, lost: State, r0: Row)
    requires window > 0 && st.row.Some? && Linked(e.chain, 0) && Poll(st, window, e) == (lost, CheckpointFailed)
    requires Held(st.history, window, st.row.value, st.row.value, st.row.value)
    requires r0 in lost.rows && r0 !in Checked(st, window, e).0.rows
    requires Linked(again.chain, 0) && e.chain <= again.chain && e.batchSize <= again.batchSize
    requires again.readOk && again.fetchOk && again.updateOk && lost.row.Some?
    requires Checked(lost, window, again) == (lost.(seen := lost.seen - again.expired), Done, lost.row.value)
    ensures var next := Poll(lost, window, again).0; next.row.Some? && !Exposed(next, window, r0)
  {
    var page, cursor := LostPoll(st, window, e);
    LongerPage(e.chain, again.chain, cursor, e.batchSize, again.batchSize);
    var next := PollAgain(lost, window, again, cursor, cursor + |page|);
    HeldIsNotExposed(next, window, cursor, r0);
  }

  lemma PollAgain(lost: State, window: nat, again: Env, cursor: nat, top: nat) returns (next: State)
    requires window > 0 && lost.row == Some(cursor) && Held(lost.history, window, cursor, top, top)
    requires Linked(again.chain, 0) && again.readOk && again.fetchOk && again.updateOk
    requires Checked(lost, window, again) == (lost.(seen := lost.seen - again.expired), Done, cursor)
    requires cursor <= top <= cursor + |FetchLedgers(again.chain, cursor, again.batchSize)|
    ensures next == Poll(lost, window, again).0 && next.row.Some? && top <= next.row.value
    ensures Held(next.history, window, cursor, next.row.value, next.row.value)
  {
    var st1 := lost.(seen := lost.seen - again.expired);
    var page := FetchLedgers(again.chain, cursor, again.batchSize);
    PollUnfolds(lost, window, again, cursor);
    FetchedPage(again.chain, cursor, again.batchSize);
    ReplayMoves(st1, window, again, cursor, page);
    RevisitHolds(st1, window, page, again.txns, cursor, top, cursor);
    next := Poll(lost, window, again).0;
  }

  // ---------------------------------------------------------------------------------------
  // The reconciler
  // ---------------------------------------------------------------------------------------

  /** The reconciler may move the cursor and records no hash. A ledger that it visits, wherever it stands,
      leaves a guarded state guarded if and only if a new row is guarded where it is stored, and the
      first ledger of the moved window is recorded in case some old row lies below it. */
  lemma VisitGuardsIff(x: Indexer, window: nat, look: Look, start: nat)
    requires window > 0 && Guarded(x.engine, window, start) && HasNext(x, look) && Numbered(look.chain, 0)
    ensures var next, p := CatchUp(x, look).engine, x.position.value + 1;
      var row := if look.updateOk then Max(x.engine.row.value, p) else x.engine.row.value;
      var from := WindowStart(row, window);
      Guarded(next, window, start) <==>
        && (next.rows != x.engine.rows && start < p ==>
              p <= row && if from <= p then p in x.engine.history else from in x.engine.history)
        && ((exists r :: r in x.engine.rows && start < r.ledger < from) ==> from in x.engine.history)
  {
    CatchUpKeeps(x, look);
    var next, p := CatchUp(x, look).engine, x.position.value + 1;
    var row := if look.updateOk then Max(x.engine.row.value, p) else x.engine.row.value;
    var from := WindowStart(row, window);
    assert next.row == Some(row) && WindowStart(x.engine.row.value, window) <= from;
    if next.rows != x.engine.rows {
      var r :| r in next.rows && r !in x.engine.rows;
      assert r.ledger == p;
    }
    if Guarded(next, window, start) && exists r :: r in x.engine.rows && start < r.ledger < from {
      var r :| r in x.engine.rows && start < r.ledger < from;
      assert r in next.rows;
    }
  }

  /** In particular a ledger that the engine has recorded inside the window may be visited again. */
  lemma RecordedVisitKeepsGuard(x: Indexer, window: nat, look: Look, start: nat)
    requires window > 0 && Guarded(x.engine, window, start)
    requires HasNext(x, look) && Numbered(look.chain, 0)
    requires WindowStart(x.engine.row.value, window) <= x.position.value + 1 <= x.engine.row.value
    requires x.position.value + 1 in x.engine.history
    ensures Guarded(CatchUp(x, look).engine, window, start)
  {
    VisitGuardsIff(x, window, look, start);
  }

  /** So every row that the reconciler stores above the cursor can be abandoned unnoticed: some branch
      in reach passes the next check and the row stays. */
  lemma ReconcilerHidesFork(x: Indexer, window: nat, look: Look, full: seq<Ledger>, start: nat, r0: Row)
    returns (e: Env, world: set<Ledger>)
    requires window > 0 && x.engine.row.Some? && HasNext(x, look) && look.updateOk && Numbered(look.chain, 0)
    requires start <= x.engine.row.value <= x.position.value && Bounded(x.engine, start, x.engine.row.value)
    requires OnChain(x.engine.history, full) && Linked(full, 0) && CollisionFree(LedgerSet(full))
    requires r0 in CatchUp(x, look).engine.rows && r0 !in x.engine.rows
    ensures var next := CatchUp(x, look).engine;
      next.row.Some? && InReach(next, window, e) && !RepairedBy(next, window, start, full, e, world)
  {
    CatchUpKeeps(x, look);
    e, world := ExposedRowIsMissed(CatchUp(x, look).engine, window, full, start, r0);
  }

  /** A rewind in the middle of a cycle is overrun: the reconciler goes on from its own position, the row
      follows it, and nothing is stored for the ledgers between the rewound cursor and that position. */
  lemma RewindIsOverrun(x: Indexer, look: Look, cursor: nat, position: nat)
    requires x.engine.row == Some(cursor) && x.position == Some(position) && cursor < position
    requires HasNext(x, look) && look.updateOk && Numbered(look.chain, 0)
    ensures var next := CatchUp(x, look);
      && next.engine.row == Some(position + 1) && next.position == Some(position + 1)
      && forall r :: r in next.engine.rows && cursor < r.ledger <= position ==> r in x.engine.rows
  {
    CatchUpKeeps(x, look);
  }

  /** Every recorded hash is the chain's, or so far behind that no check reads its ledger again. */
  ghost predicate OutOfSight(st: State, window: nat, chain: seq<Ledger>) {
    && st.row.Some?
    && forall s :: s in st.history ==>
         s + window <= st.row.value || (1 <= s <= |chain| && st.history[s] == chain[s - 1].hash)
  }

  lemma OutOfSightHasNoMismatch(h: map<nat, string>, page: seq<Ledger>, chain: seq<Ledger>, from: nat, cursor: nat)
    requires IsWindow(page, chain, from, cursor) && Numbered(page, from - 1) && Numbered(chain, 0)
    requires forall s :: s in h && from <= s <= |chain| ==> h[s] == chain[s - 1].hash
    ensures LeastMismatch(h, page) == 0
  {
    forall i | 0 <= i < |page| ensures !Mismatch(h, page[i]) {
      assert page[i] == chain[from - 1 + i];
    }
    LeastMismatchIsFirst(h, page, from - 1);
  }

  lemma OutOfSightIsConsistent(st: State, window: nat, chain: seq<Ledger>)
    requires OutOfSight(st, window, chain) && Numbered(chain, 0)
    ensures Detect(st.history, window, chain, true, st.row.value) == Consistent
  {
    var cursor := st.row.value;
    if window > 0 && cursor > 0 {
      var page, fork := DetectFromScan(st.history, window, chain, cursor);
      OutOfSightHasNoMismatch(st.history, page, chain, WindowStart(cursor, window), cursor);
    }
  }

  lemma VisitOutOfSight(st: State, window: nat, l: Ledger, txns: map<nat, seq<Tx>>, chain: seq<Ledger>)
    requires OutOfSight(st, window, chain) && Numbered(chain, 0) && l in chain
    ensures var v := Visit(st, window, l, txns);
      v.row == st.row && st.rows <= v.rows && OutOfSight(v, window, chain)
  {
    var i :| 0 <= i < |chain| && chain[i] == l;
    DeliverKeeps(Sink(st.rows, st.seen), l, TxsOf(txns, l));
  }

  lemma {:induction false} VisitAllOutOfSight(st: State, window: nat, page: seq<Ledger>, txns: map<nat, seq<Tx>>,
                                              chain: seq<Ledger>)
    requires OutOfSight(st, window, chain) && Numbered(chain, 0) && forall l :: l in page ==> l in chain
    ensures var v := VisitAll(st, window, page, txns);
      v.row == st.row && st.rows <= v.rows && OutOfSight(v, window, chain)
  {
    if page != [] {
      var init, l := page[..|page| - 1], page[|page| - 1];
      assert l in page;
      VisitAllOutOfSight(st, window, init, txns, chain);
      VisitOutOfSight(VisitAll(st, window, init, txns), window, l, txns, chain);
    }
  }

  lemma PollOutOfSight(st: State, window: nat, e: Env)
    requires OutOfSight(st, window, e.chain) && Numbered(e.chain, 0)
    ensures var next := Poll(st, window, e).0;
      st.rows <= next.rows && OutOfSight(next, window, e.chain)
  {
    var st1 := st.(seen := st.seen - e.expired);
    var cursor := st.row.value;
    PollUnfolds(st, window, e, cursor);
    OutOfSightIsConsistent(st1, window, e.chain);
    if e.fetchOk {
      FetchedPage(e.chain, cursor, e.batchSize);
      VisitAllOutOfSight(st1, window, FetchLedgers(e.chain, cursor, e.batchSize), e.txns, e.chain);
    }
  }

  /** Once the recorded hashes of an abandoned branch are out of sight, nothing that is stored is ever
      removed again while the chain only grows. */
  lemma {:induction false} OutOfSightForGood(x: Indexer, window: nat, base: seq<Ledger>, acts: seq<Act>)
    requires OutOfSight(x.engine, window, base) && Extending(base, acts)
    ensures var next := Run(x, window, acts).engine;
      x.engine.rows <= next.rows && OutOfSight(next, window, LastChain(base, acts))
    decreases |acts|
  {
    if acts != [] {
      var init, a := acts[..|acts| - 1], acts[|acts| - 1];
      OutOfSightForGood(x, window, base, init);
      if a.PollsOnce? {
        PollOutOfSight(Run(x, window, init).engine, window, a.e);
      } else if a.CatchesUp? {
        CatchUpKeeps(Run(x, window, init), a.look);
      }
    }
  }

  /** The looks of n successful visits of a cycle that starts at the cursor. */
  ghost predicate CycleOf(acts: seq<Act>, cursor: nat) {
    forall i :: 0 <= i < |acts| ==>
      && acts[i].CatchesUp? && acts[i].look.updateOk
      && Numbered(acts[i].look.chain, 0) && cursor + i < |acts[i].look.chain|
  }

  lemma {:induction false} CycleMovesOn(x: Indexer, window: nat, acts: seq<Act>, cursor: nat)
    requires x.engine.row == Some(cursor) && x.position == Some(cursor) && CycleOf(acts, cursor)
    ensures var next := Run(x, window, acts);
      && next.engine.row == Some(cursor + |acts|) && next.position == Some(cursor + |acts|)
      && next.engine.history == x.engine.history && x.engine.rows <= next.engine.rows
    decreases |acts|
  {
    if acts != [] {
      var init, a := acts[..|acts| - 1], acts[|acts| - 1];
      CycleMovesOn(x, window, init, cursor);
      CatchUpKeeps(Run(x, window, init), a.look);
    }
  }

  /** A cycle of at least window ledgers outruns the recorded hashes: whatever branch the rows of before
      stem from, no later check removes them, however far the new chain grows. */
  lemma CycleOutrunsCheck(x: Indexer, window: nat, cycle: seq<Act>, start: nat, cursor: nat, base: seq<Ledger>,
                          acts: seq<Act>)
    requires x.engine.row == Some(cursor) && x.position == Some(cursor) && Bounded(x.engine, start, cursor)
    requires CycleOf(cycle, cursor) && window <= |cycle| && Extending(base, acts)
    ensures var next := Run(Run(x, window, cycle), window, acts).engine;
      x.engine.rows <= next.rows && OutOfSight(next, window, LastChain(base, acts))
  {
    CycleMovesOn(x, window, cycle, cursor);
    OutOfSightForGood(Run(x, window, cycle), window, base, acts);
  }

  // ---------------------------------------------------------------------------------------
  // After any run over a growing chain
  // ---------------------------------------------------------------------------------------

  /** The act sees a part of the chain full, as far as it had grown by then. */
  ghost predicate SeesPartOf(a: Act, full: seq<Ledger>) {
    match a
    case PollsOnce(e) => e.chain <= full
    case BeginsCycle => true
    case CatchesUp(look) => look.chain <= full
  }

  /** Everything recorded and everything stored stems from the chain. */
  ghost predicate StemsFrom(st: State, start: nat, full: seq<Ledger>) {
    st.row.Some? && OnChain(st.history, full) && RowsOn(st.rows, start, full)
  }

  lemma {:induction false} VisitAllRowsOn(st: State, window: nat, page: seq<Ledger>, txns: map<nat, seq<Tx>>,
                                          start: nat,
                                          full: seq<Ledger>)
    requires RowsOn(st.rows, start, full) && Numbered(full, 0) && forall l :: l in page ==> l in full
    ensures RowsOn(VisitAll(st, window, page, txns).rows, start, full)
  {
    if page != [] {
      var init, l := page[..|page| - 1], page[|page| - 1];
      assert l in page;
      VisitAllRowsOn(st, window, init, txns, start, full);
      var v := VisitAll(st, window, init, txns);
      DeliverKeeps(Sink(v.rows, v.seen), l, TxsOf(txns, l));
      var i :| 0 <= i < |full| && full[i] == l;
    }
  }

  lemma ReplayStems(st: State, window: nat, e: Env, cursor: nat, start: nat, full: seq<Ledger>)
    requires StemsFrom(st, start, full) && Numbered(full, 0) && e.chain <= full
    ensures StemsFrom(Replay(st, window, e, cursor).0, start, full)
  {
    var page := FetchLedgers(e.chain, cursor, e.batchSize);
    FetchedPage(e.chain, cursor, e.batchSize);
    assert forall l :: l in page ==> l in full;
    VisitAllStaysOnChain(st, window, page, e.txns, full);
    VisitAllRowsOn(st, window, page, e.txns, start, full);
    VisitAllKeepsRow(st, window, page, e.txns);
  }

  lemma RollbackStems(st: State, r: Check, e: Env, cursor: nat, start: nat, full: seq<Ledger>)
    requires StemsFrom(st, start, full)
    ensures StemsFrom(Rollback(st, r, e, cursor).0, start, full)
  {
  }

  lemma PollStems(st: State, window: nat, e: Env, start: nat, full: seq<Ledger>)
    requires StemsFrom(st, start, full) && Numbered(full, 0) && e.chain <= full
    ensures StemsFrom(Poll(st, window, e).0, start, full)
  {
    if st.row.Some? {
      var st1, cursor := st.(seen := st.seen - e.expired), st.row.value;
      PollUnfolds(st, window, e, cursor);
      RollbackStems(st1, Detect(st1.history, window, e.chain, e.windowOk, cursor), e, cursor, start, full);
      var res := CheckReorg(st1, window, e, cursor);
      ReplayStems(res.0, window, e, res.2, start, full);
    }
  }

  lemma VisitStems(x: Indexer, look: Look, start: nat, full: seq<Ledger>)
    requires StemsFrom(x.engine, start, full) && Numbered(full, 0) && look.chain <= full
    ensures StemsFrom(CatchUp(x, look).engine, start, full)
  {
    CatchUpKeeps(x, look);
    if HasNext(x, look) {
      assert look.chain[x.position.value] == full[x.position.value];
    }
  }

  lemma {:induction false} GrowingRunStems(x: Indexer, window: nat, acts: seq<Act>, start: nat, full: seq<Ledger>)
    requires StemsFrom(x.engine, start, full) && Numbered(full, 0)
    requires forall i :: 0 <= i < |acts| ==> SeesPartOf(acts[i], full)
    ensures StemsFrom(Run(x, window, acts).engine, start, full)
    decreases |acts|
  {
    if acts != [] {
      var init, a := acts[..|acts| - 1], acts[|acts| - 1];
      GrowingRunStems(x, window, init, start, full);
      match a
      case PollsOnce(e) => PollStems(Run(x, window, init).engine, window, e, start, full);
      case BeginsCycle =>
      case CatchesUp(look) => VisitStems(Run(x, window, init), look, start, full);
    }
  }

  /** The exact condition at the end of any run of both processes over a growing chain, with any calls
      failing, any checkpoints lost and any number of reconciler cycles: the next check repairs every
      swap to a chain in reach if and only if the indexer is guarded by then. */
  lemma NextSwapIsRepairedIffGuarded(x: Indexer, window: nat, acts: seq<Act>, start: nat, full: seq<Ledger>)
    requires window > 0 && Starts(x, start) && Linked(full, 0) && CollisionFree(LedgerSet(full))
    requires forall i :: 0 <= i < |acts| ==> SeesPartOf(acts[i], full)
    ensures var now := Run(x, window, acts).engine;
      && now.row.Some?
      && (Guarded(now, window, start) <==>
            forall e, world :: InReach(now, window, e) ==> RepairedBy(now, window, start, full, e, world))
  {
    GrowingRunStems(x, window, acts, start, full);
    RepairIsCorrectIffGuarded(Run(x, window, acts).engine, window, full, start);
  }
}
