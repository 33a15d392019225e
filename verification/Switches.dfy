/**
A chain that is replaced in the middle of a poll, between its reorg check and its fetch.
 */
module Switches {
  import opened Ledgers
  import opened Reorg
  import opened Cursors
  import opened Wrappers
  import opened Engine
  import opened Guards
  import opened Swaps
  import opened Repairs
  import opened Runs
  import opened Coverage
  import opened Gaps
  import LH = LedgerHistory

  /** The check has left a state that stems from the chain full, up to its cursor; then a page of the
      chain later is visited on top of it and the cursor moved to its end. */
  ghost predicate Switched(checked: State, window: nat, start: nat, full: seq<Ledger>, later: seq<Ledger>, limit: nat,
                           txns: map<nat, seq<Tx>>, page: seq<Ledger>, after: State)
  {
    && window > 0 && |checked.history| <= window && checked.row == Some(|full|) && StemsFrom(checked, start, full)
    && Linked(full, 0) && Linked(later, 0) && page == FetchLedgers(later, |full|, limit)
    && after == VisitAll(checked, window, page, txns).(row := Some(|full| + |page|))
  }

  /** Every completed replay is such a visit, of at most batchSize ledgers. */
  lemma ReplayedPage(st: State, window: nat, e: Env, cursor: nat, after: State) returns (page: seq<Ledger>)
    requires st.row == Some(cursor) && Numbered(e.chain, 0) && Replay(st, window, e, cursor) == (after, Done)
    ensures page == FetchLedgers(e.chain, cursor, e.batchSize) && |page| <= e.batchSize
    ensures after == VisitAll(st, window, page, e.txns).(row := Some(cursor + |page|))
  {
    page := FetchLedgers(e.chain, cursor, e.batchSize);
    ReplayMoves(st, window, e, cursor, page);
  }

  // ---------------------------------------------------------------------------------------
  // The mixed state
  // ---------------------------------------------------------------------------------------

  /** The stored and the recorded stem from two stretches, the chain full and the page on top of it, and
      the newest window above the switch is recorded. */
  ghost predicate Mixed(st: State, window: nat, start: nat, full: seq<Ledger>, page: seq<Ledger>) {
    && st.row == Some(|full| + |page|) && StemsFrom(st, start, full + page)
    && Held(st.history, window, |full|, |full| + |page|, |full| + |page|)
  }

  lemma PageOnTop(full: seq<Ledger>, later: seq<Ledger>, limit: nat, page: seq<Ledger>)
    requires Linked(full, 0) && Linked(later, 0) && page == FetchLedgers(later, |full|, limit)
    ensures Numbered(page, |full|) && (forall i :: 0 <= i < |page| ==> page[i].hash != "")
    ensures Numbered(full + page, 0)
  {
    FetchedPage(later, |full|, limit);
  }

  lemma StemsFromLonger(st: State, start: nat, full: seq<Ledger>, page: seq<Ledger>)
    requires StemsFrom(st, start, full)
    ensures StemsFrom(st, start, full + page)
  {
  }

  lemma VisitedStems(st: State, window: nat, page: seq<Ledger>, txns: map<nat, seq<Tx>>, start: nat, chain: seq<Ledger>,
                     after: State)
    requires StemsFrom(st, start, chain) && Numbered(chain, 0) && forall l :: l in page ==> l in chain
    requires after.history == VisitAll(st, window, page, txns).history && after.row.Some?
    requires after.rows == VisitAll(st, window, page, txns).rows
    ensures StemsFrom(after, start, chain)
  {
    VisitAllStaysOnChain(st, window, page, txns, chain);
    VisitAllRowsOn(st, window, page, txns, start, chain);
  }

  lemma FreshHeld(st: State, window: nat, start: nat, full: seq<Ledger>)
    requires StemsFrom(st, start, full) && |st.history| <= window
    ensures Held(st.history, window, |full|, |full|, |full|)
  {
  }

  lemma PageStems(checked: State, window: nat, start: nat, full: seq<Ledger>, txns: map<nat, seq<Tx>>,
                  page: seq<Ledger>, mixed: seq<Ledger>, after: State)
    requires StemsFrom(checked, start, full) && Numbered(mixed, 0) && mixed == full + page
    requires after == VisitAll(checked, window, page, txns).(row := Some(|full| + |page|))
    ensures StemsFrom(after, start, mixed)
  {
    StemsFromLonger(checked, start, full, page);
    assert forall l :: l in page ==> l in mixed;
    VisitedStems(checked, window, page, txns, start, mixed, after);
  }

  lemma PageHolds(checked: State, window: nat, start: nat, full: seq<Ledger>, txns: map<nat, seq<Tx>>,
                  page: seq<Ledger>, after: State)
    requires window > 0 && StemsFrom(checked, start, full) && |checked.history| <= window
    requires Numbered(page, |full|) && forall i :: 0 <= i < |page| ==> page[i].hash != ""
    requires after == VisitAll(checked, window, page, txns).(row := Some(|full| + |page|))
    ensures Held(after.history, window, |full|, |full| + |page|, |full| + |page|)
  {
    FreshHeld(checked, window, start, full);
    VisitAllHolds(checked, window, page, txns, |full|, |full|, |full|);
  }

  lemma SwitchMixes(checked: State, window: nat, start: nat, full: seq<Ledger>, later: seq<Ledger>, limit: nat,
                    txns: map<nat, seq<Tx>>, page: seq<Ledger>, after: State)
    requires Switched(checked, window, start, full, later, limit, txns, page, after)
    ensures Mixed(after, window, start, full, page)
  {
    PageOnTop(full, later, limit, page);
    PageStems(checked, window, start, full, txns, page, full + page, after);
    PageHolds(checked, window, start, full, txns, page, after);
  }

  /** A row of a mixed state is of full or of the page, by where it lies; so is a recorded hash. */
  lemma MixedStretches(st: State, window: nat, start: nat, full: seq<Ledger>, page: seq<Ledger>)
    requires Mixed(st, window, start, full, page)
    ensures OnChainBelow(st.history, full, |full| + 1)
    ensures forall r :: r in st.rows && start < r.ledger <= |full| ==> r.branch == full[r.ledger - 1].hash
    ensures forall r :: r in st.rows && start < r.ledger ==> r.ledger <= |full| + |page|
  {
  }

  // ---------------------------------------------------------------------------------------
  // Repaired by every next chain
  // ---------------------------------------------------------------------------------------

  /** When the check of e's chain, which reaches the window, completes, no row of an abandoned branch is
      left. No hash of e's chain collides with one of the world. */
  ghost predicate RepairedAmong(st: State, window: nat, start: nat, world: set<Ledger>, e: Env, wider: set<Ledger>)
    requires st.row.Some?
  {
    && world <= wider && CollisionFree(wider) && Linked(e.chain, 0) && Within(e.chain, wider)
    && InReach(st, window, e) && CheckReorg(st, window, e, st.row.value).1 == Done
    ==> NoAbandonedRow(CheckReorg(st, window, e, st.row.value).0.rows, start, e.chain)
  }

  ghost predicate AlwaysRepaired(st: State, window: nat, start: nat, world: set<Ledger>)
    requires st.row.Some?
  {
    forall e, wider :: RepairedAmong(st, window, start, world, e, wider)
  }

  /** What the recorded hash of a surviving ledger says about the chain. */
  ghost predicate Confirmed(st: State, window: nat, chain: seq<Ledger>, s: nat)
    requires st.row.Some?
  {
    s in st.history && 0 < WindowStart(st.row.value, window) <= s <= st.row.value && 0 < s <= |chain| ==>
      st.history[s] == chain[s - 1].hash
  }

  lemma SurvivorIsConfirmed(st: State, window: nat, e: Env, s: nat)
    requires window > 0 && st.row.Some? && Numbered(e.chain, 0) && Survives(st, window, e, s)
    ensures Confirmed(st, window, e.chain, s)
  {
    if s in st.history && 0 < WindowStart(st.row.value, window) <= s <= st.row.value && s <= |e.chain| {
      Compared(st.history, window, e, st.row.value, s);
    }
  }

  /** With a page shorter than the window, the first ledger of the window is one of the old chain. */
  lemma MixedBelowWindow(st: State, window: nat, start: nat, full: seq<Ledger>, page: seq<Ledger>, chain: seq<Ledger>,
                         r: Row)
    requires window > 0 && Mixed(st, window, start, full, page) && |page| < window && Guarded(st, window, start)
    requires r in st.rows && start < r.ledger < WindowStart(st.row.value, window) <= |chain|
    requires Confirmed(st, window, chain, WindowStart(st.row.value, window))
    ensures var from := WindowStart(st.row.value, window);
      from <= |full| && SameAt(full, 0, chain, from) && r.branch == full[r.ledger - 1].hash
  {
    MixedStretches(st, window, start, full, page);
  }

  lemma MixedInWindow(st: State, window: nat, start: nat, full: seq<Ledger>, page: seq<Ledger>, chain: seq<Ledger>,
                      r: Row)
    requires window > 0 && Mixed(st, window, start, full, page) && Guarded(st, window, start)
    requires r in st.rows && start < r.ledger <= |chain| && WindowStart(st.row.value, window) <= r.ledger
    requires Confirmed(st, window, chain, r.ledger)
    ensures r.branch == chain[r.ledger - 1].hash
  {
  }

  lemma MixedRowAgrees(st: State, window: nat, start: nat, full: seq<Ledger>, page: seq<Ledger>, chain: seq<Ledger>,
                       world: set<Ledger>, r: Row)
    requires window > 0 && Mixed(st, window, start, full, page) && |page| < window && Guarded(st, window, start)
    requires TwoBranches(full, 0, chain, world) && WindowStart(st.row.value, window) <= |chain|
    requires r in st.rows && start < r.ledger <= |chain|
    requires Confirmed(st, window, chain, r.ledger) && Confirmed(st, window, chain, WindowStart(st.row.value, window))
    ensures r.branch == chain[r.ledger - 1].hash
  {
    if r.ledger < WindowStart(st.row.value, window) {
      MixedBelowWindow(st, window, start, full, page, chain, r);
      MeetingBranchesShareThePast(full, 0, chain, world, WindowStart(st.row.value, window), r.ledger);
    } else {
      MixedInWindow(st, window, start, full, page, chain, r);
    }
  }

  lemma MixedCheckIsSafe(st: State, window: nat, start: nat, full: seq<Ledger>, page: seq<Ledger>, e: Env,
                         world: set<Ledger>)
    requires window > 0 && Mixed(st, window, start, full, page) && |page| < window && Guarded(st, window, start)
    requires TwoBranches(full, 0, e.chain, world) && InReach(st, window, e)
    requires CheckReorg(st, window, e, st.row.value).1 == Done
    ensures NoAbandonedRow(CheckReorg(st, window, e, st.row.value).0.rows, start, e.chain)
  {
    CheckRemains(st, window, e);
    var res := CheckReorg(st, window, e, st.row.value).0;
    forall r | r in res.rows && start < r.ledger <= |e.chain| ensures r.branch == e.chain[r.ledger - 1].hash {
      SurvivorIsConfirmed(st, window, e, r.ledger);
      SurvivorIsConfirmed(st, window, e, WindowStart(st.row.value, window));
      MixedRowAgrees(st, window, start, full, page, e.chain, world, r);
    }
  }

  lemma ShortPageIsRepaired(st: State, window: nat, start: nat, full: seq<Ledger>, page: seq<Ledger>,
                            world: set<Ledger>)
    requires window > 0 && Mixed(st, window, start, full, page) && |page| < window && Guarded(st, window, start)
    requires Linked(full, 0) && Within(full, world)
    ensures AlwaysRepaired(st, window, start, world)
  {
    forall e, wider ensures RepairedAmong(st, window, start, world, e, wider) {
      if && world <= wider && CollisionFree(wider) && Linked(e.chain, 0) && Within(e.chain, wider)
         && InReach(st, window, e) && CheckReorg(st, window, e, st.row.value).1 == Done {
        MixedCheckIsSafe(st, window, start, full, page, e, wider);
      }
    }
  }

  // ---------------------------------------------------------------------------------------
  // A page of a window or more
  // ---------------------------------------------------------------------------------------

  lemma {:induction false} RangeCount(keys: set<nat>, lo: nat, hi: nat)
    requires lo <= hi && forall s: nat :: lo < s <= hi ==> s in keys
    ensures |keys| >= hi - lo
    decreases hi - lo
  {
    if lo < hi {
      RangeCount(keys - {hi}, lo, hi - 1);
    }
  }

  /** Then a full history holds hashes of the page only. */
  lemma LongPageIsAllThereIs(h: map<nat, string>, window: nat, cursor: nat, top: nat, s: nat)
    requires window > 0 && Held(h, window, cursor, top, top) && cursor + window <= top && s in h
    ensures cursor < s
  {
    if s <= cursor {
      var rest := h.Keys - {s};
      assert |rest| == |h| - 1;
      RangeCount(rest, top - window, top);
    }
  }

  lemma LongPageOnChain(st: State, window: nat, start: nat, full: seq<Ledger>, later: seq<Ledger>, limit: nat,
                        page: seq<Ledger>)
    requires window > 0 && Mixed(st, window, start, full, page) && window <= |page|
    requires page == FetchLedgers(later, |full|, limit)
    ensures OnChain(st.history, later) && |full| + |page| <= |later|
  {
    FetchedPage(later, |full|, limit);
    forall s | s in st.history ensures 1 <= s <= |later| && st.history[s] == later[s - 1].hash {
      LongPageIsAllThereIs(st.history, window, |full|, |full| + |page|, s);
      assert (full + page)[s - 1] == page[s - 1 - |full|] == later[s - 1];
    }
  }

  /** If no row of before is abandoned by the new chain, all rows stem from it. */
  lemma LongPageRowsOn(checked: State, window: nat, start: nat, full: seq<Ledger>, later: seq<Ledger>, limit: nat,
                       txns: map<nat, seq<Tx>>, page: seq<Ledger>, after: State)
    requires Switched(checked, window, start, full, later, limit, txns, page, after) && window <= |page|
    requires NoAbandonedRow(checked.rows, start, later)
    ensures RowsOn(after.rows, start, later)
  {
    SwitchMixes(checked, window, start, full, later, limit, txns, page, after);
    PageOnTop(full, later, limit, page);
    VisitedRowsAreAbove(checked, window, page, txns, |full|);
    PageOfChain(later, |full|, limit, full, page);
    RowsOfPage(checked.rows, after.rows, start, full, page, later);
  }

  /** A page on top of full, as far as it goes, is the chain it was fetched from. */
  lemma PageOfChain(later: seq<Ledger>, cursor: nat, limit: nat, full: seq<Ledger>, page: seq<Ledger>)
    requires page == FetchLedgers(later, cursor, limit) && cursor == |full| && page != []
    ensures |full| + |page| <= |later|
    ensures forall i :: |full| <= i < |full| + |page| ==> (full + page)[i] == later[i]
  {
    FetchedPage(later, cursor, limit);
  }

  lemma RowsOfPage(rows: set<Row>, more: set<Row>, start: nat, full: seq<Ledger>, page: seq<Ledger>, later: seq<Ledger>)
    requires RowsOn(more, start, full + page) && NoAbandonedRow(rows, start, later)
    requires forall r :: r in more && r !in rows ==> |full| < r.ledger
    requires |full| + |page| <= |later|
    requires forall i :: |full| <= i < |full| + |page| ==> (full + page)[i] == later[i]
    ensures RowsOn(more, start, later)
  {
    forall r | r in more && start < r.ledger ensures r.ledger <= |later| && r.branch == later[r.ledger - 1].hash {
      if r.ledger > |full| {
        assert (full + page)[r.ledger - 1] == later[r.ledger - 1];
      }
    }
  }

  lemma HeldIsGuarded(st: State, window: nat, start: nat, mark: nat)
    requires window > 0 && st.row.Some? && Held(st.history, window, mark, st.row.value, st.row.value)
    requires forall r :: r in st.rows && start < r.ledger ==> r.ledger <= st.row.value
    requires forall r :: r in st.rows && start < r.ledger <= mark ==> mark + window <= st.row.value
    ensures Guarded(st, window, start)
  {
    forall r | r in st.rows && start < r.ledger ensures !Exposed(st, window, r) {
      if mark < r.ledger {
        HeldIsNotExposed(st, window, mark, r);
      }
    }
  }

  /** A long page is repaired if no row of before is abandoned by the new chain. */
  lemma LongPageIsRepaired(checked: State, window: nat, start: nat, full: seq<Ledger>, later: seq<Ledger>, limit: nat,
                           txns: map<nat, seq<Tx>>, page: seq<Ledger>, after: State, world: set<Ledger>)
    requires Switched(checked, window, start, full, later, limit, txns, page, after) && window <= |page|
    requires NoAbandonedRow(checked.rows, start, later) && Within(later, world)
    ensures AlwaysRepaired(after, window, start, world)
  {
    SwitchMixes(checked, window, start, full, later, limit, txns, page, after);
    LongPageOnChain(after, window, start, full, later, limit, page);
    LongPageRowsOn(checked, window, start, full, later, limit, txns, page, after);
    MixedStretches(after, window, start, full, page);
    HeldIsGuarded(after, window, start, |full|);
    forall e, wider ensures RepairedAmong(after, window, start, world, e, wider) {
      if InReach(after, window, e) && world <= wider {
        GuardedIsRepaired(after, window, later, start, e, wider);
      }
    }
  }

  lemma AbandonedStays(rows: set<Row>, more: set<Row>, start: nat, chain: seq<Ledger>, longer: seq<Ledger>)
    requires !NoAbandonedRow(rows, start, chain) && rows <= more && chain <= longer
    ensures !NoAbandonedRow(more, start, longer)
  {
    var r :| r in rows && start < r.ledger <= |chain| && r.branch != chain[r.ledger - 1].hash;
    assert r in more;
  }

  /** A chain that passes the check with a row abandoned is not repaired. */
  lemma PassedIsMissed(st: State, window: nat, start: nat, chain: seq<Ledger>, world: set<Ledger>)
    requires st.row.Some? && Linked(chain, 0) && Within(chain, world) && CollisionFree(world)
    requires OnChain(st.history, chain) && WindowStart(st.row.value, window) <= |chain|
    requires !NoAbandonedRow(st.rows, start, chain)
    ensures !RepairedAmong(st, window, start, world, CALM.(chain := chain), world)
  {
    RecordedChainPasses(st, window, chain, st.row.value);
  }

  /** And it is not if some row of before is: the check of the new chain itself passes. */
  lemma LongPageMissesRow(checked: State, window: nat, start: nat, full: seq<Ledger>, later: seq<Ledger>, limit: nat,
                          txns: map<nat, seq<Tx>>, page: seq<Ledger>, after: State, world: set<Ledger>)
    requires Switched(checked, window, start, full, later, limit, txns, page, after) && window <= |page|
    requires !NoAbandonedRow(checked.rows, start, later) && Within(later, world) && CollisionFree(world)
    ensures !RepairedAmong(after, window, start, world, CALM.(chain := later), world)
  {
    SwitchMixes(checked, window, start, full, later, limit, txns, page, after);
    LongPageOnChain(after, window, start, full, later, limit, page);
    VisitAllKeepsRows(checked, window, page, txns);
    AbandonedStays(checked.rows, after.rows, start, later, later);
    PassedIsMissed(after, window, start, later, world);
  }

  lemma {:induction false} VisitAllKeepsRows(st: State, window: nat, page: seq<Ledger>, txns: map<nat, seq<Tx>>)
    ensures st.rows <= VisitAll(st, window, page, txns).rows
  {
    if page != [] {
      var init, l := page[..|page| - 1], page[|page| - 1];
      VisitAllKeepsRows(st, window, init, txns);
      var v := VisitAll(st, window, init, txns);
      DeliverKeeps(Sink(v.rows, v.seen), l, TxsOf(txns, l));
    }
  }

  // ---------------------------------------------------------------------------------------
  // The exact condition
  // ---------------------------------------------------------------------------------------

  /** An exposed row of a mixed state is one of the old chain. */
  lemma ExposedInMix(st: State, window: nat, start: nat, full: seq<Ledger>, page: seq<Ledger>) returns (r0: Row)
    requires window > 0 && Mixed(st, window, start, full, page) && !Guarded(st, window, start)
    ensures r0 in st.rows && start < r0.ledger && Exposed(st, window, r0) && OnChainBelow(st.history, full, r0.ledger)
  {
    r0 :| r0 in st.rows && start < r0.ledger && Exposed(st, window, r0);
    MixedStretches(st, window, start, full, page);
    if |full| < r0.ledger {
      HeldIsNotExposed(st, window, |full|, r0);
    }
  }

  /** And some branch abandons it unnoticed. */
  lemma ExposedMixIsMissed(st: State, window: nat, start: nat, full: seq<Ledger>, world: set<Ledger>, r0: Row)
    returns (e: Env, wider: set<Ledger>)
    requires window > 0 && st.row.Some? && Linked(full, 0) && Within(full, world) && CollisionFree(world)
    requires r0 in st.rows && start < r0.ledger && Exposed(st, window, r0) && OnChainBelow(st.history, full, r0.ledger)
    ensures !RepairedAmong(st, window, start, world, e, wider)
  {
    var n: nat := Max(r0.ledger, WindowStart(st.row.value, window));
    e, wider := AbandoningBranch(full, r0, n, world);
    ExposedRowStays(st, window, full, e, r0);
  }

  /** The exact condition for a chain that is replaced between the check of a poll and its fetch, whether
      or not the check has just rolled back: the next check repairs every chain in reach if and only if
      the state is guarded after the poll and, where the page is a window long or more, no row of before
      is abandoned by the chain it was fetched from. */
  lemma SwitchIsRepairedIff(checked: State, window: nat, start: nat, full: seq<Ledger>, later: seq<Ledger>, limit: nat,
                            txns: map<nat, seq<Tx>>, page: seq<Ledger>, after: State, world: set<Ledger>)
    requires Switched(checked, window, start, full, later, limit, txns, page, after)
    requires Within(full, world) && Within(later, world) && CollisionFree(world)
    ensures (Guarded(after, window, start) && (|page| < window || NoAbandonedRow(checked.rows, start, later)))
      <==> AlwaysRepaired(after, window, start, world)
  {
    SwitchMixes(checked, window, start, full, later, limit, txns, page, after);
    if !Guarded(after, window, start) {
      var r0 := ExposedInMix(after, window, start, full, page);
      var e, wider := ExposedMixIsMissed(after, window, start, full, world, r0);
    } else if |page| < window {
      ShortPageIsRepaired(after, window, start, full, page, world);
    } else if NoAbandonedRow(checked.rows, start, later) {
      LongPageIsRepaired(checked, window, start, full, later, limit, txns, page, after, world);
    } else {
      LongPageMissesRow(checked, window, start, full, later, limit, txns, page, after, world);
    }
  }

  /** From a covered window the state is guarded after the poll, so that only the page counts. */
  lemma CoveredSwitchIsRepairedIff(checked: State, window: nat, start: nat, full: seq<Ledger>, later: seq<Ledger>,
                                   limit: nat, txns: map<nat, seq<Tx>>, page: seq<Ledger>, after: State,
                                   world: set<Ledger>)
    requires Switched(checked, window, start, full, later, limit, txns, page, after)
    requires Within(full, world) && Within(later, world) && CollisionFree(world)
    requires Covers(checked.history, start, |full|, window)
    ensures (|page| < window || NoAbandonedRow(checked.rows, start, later))
      <==> AlwaysRepaired(after, window, start, world)
  {
    SwitchIsRepairedIff(checked, window, start, full, later, limit, txns, page, after, world);
    CoveredSwitchIsGuarded(checked, window, start, full, later, limit, txns, page, after);
  }

  lemma CoveredSwitchIsGuarded(checked: State, window: nat, start: nat, full: seq<Ledger>, later: seq<Ledger>,
                               limit: nat, txns: map<nat, seq<Tx>>, page: seq<Ledger>, after: State)
    requires Switched(checked, window, start, full, later, limit, txns, page, after)
    requires Covers(checked.history, start, |full|, window)
    ensures Guarded(after, window, start)
  {
    SwitchMixes(checked, window, start, full, later, limit, txns, page, after);
    MixedStretches(after, window, start, full, page);
    PageOnTop(full, later, limit, page);
    assert Held(checked.history, window, start, |full|, |full|);
    VisitAllHolds(checked, window, page, txns, start, |full|, |full|);
    HeldIsGuarded(after, window, start, start);
  }

  // ---------------------------------------------------------------------------------------
  // Hidden for good
  // ---------------------------------------------------------------------------------------

  lemma {:induction false} ExtendingExtends(base: seq<Ledger>, acts: seq<Act>)
    requires Extending(base, acts)
    ensures base <= LastChain(base, acts)
    decreases |acts|
  {
    if acts != [] {
      ExtendingExtends(base, acts[..|acts| - 1]);
    }
  }

  /** A row that a long page has left abandoned stays, and stays abandoned, in every run of both
      processes for as long as the new chain only grows. */
  lemma LongPageHidesSwitch(checked: State, window: nat, start: nat, full: seq<Ledger>, later: seq<Ledger>, limit: nat,
                            txns: map<nat, seq<Tx>>, page: seq<Ledger>, after: State, x: Indexer, acts: seq<Act>)
    requires Switched(checked, window, start, full, later, limit, txns, page, after) && window <= |page|
    requires !NoAbandonedRow(checked.rows, start, later) && x.engine == after && Extending(later, acts)
    ensures !NoAbandonedRow(Run(x, window, acts).engine.rows, start, LastChain(later, acts))
  {
    SwitchMixes(checked, window, start, full, later, limit, txns, page, after);
    LongPageOnChain(after, window, start, full, later, limit, page);
    VisitAllKeepsRows(checked, window, page, txns);
    OutOfSightForGood(x, window, later, acts);
    ExtendingExtends(later, acts);
    AbandonedStays(checked.rows, Run(x, window, acts).engine.rows, start, later, LastChain(later, acts));
  }
}
