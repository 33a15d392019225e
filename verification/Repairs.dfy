/**
Exactly when the reorg check repairs every branch swap, and what it misses otherwise.
 */
module Repairs {
  import opened Ledgers
  import opened Reorg
  import opened Wrappers
  import opened Engine
  import opened Guards
  import opened Swaps
  import LH = LedgerHistory

  ghost const CALM: Env := Env([], 1, map[], {}, true, true, true, true, true, true)

  /** When the check of e's chain completes, no row of an abandoned branch is left. The hashes of the
      indexed chain full and of e's chain do not collide. */
  ghost predicate RepairedBy(st: State, window: nat, start: nat, full: seq<Ledger>, e: Env, world: set<Ledger>)
    requires st.row.Some?
  {
    TwoBranches(full, 0, e.chain, world) && CheckReorg(st, window, e, st.row.value).1 == Done
    ==> NoAbandonedRow(CheckReorg(st, window, e, st.row.value).0.rows, start, e.chain)
  }

  /** The chain reaches the reorg window, so that the check reads at least one ledger. */
  ghost predicate InReach(st: State, window: nat, e: Env)
    requires st.row.Some?
  {
    WindowStart(st.row.value, window) <= |e.chain|
  }

  /** A chain that ends below the window leaves nothing to compare: the check is silent. */
  lemma ShortChainIsNotChecked(st: State, window: nat, e: Env)
    requires window > 0 && st.row.Some? && !InReach(st, window, e) && e.windowOk && Numbered(e.chain, 0)
    ensures CheckReorg(st, window, e, st.row.value) == (st, Done, st.row.value)
  {
    if st.row.value > 0 {
      var page, fork := DetectFromScan(st.history, window, e.chain, st.row.value);
    }
  }

  // ---------------------------------------------------------------------------------------
  // An unguarded row
  // ---------------------------------------------------------------------------------------

  /** The row is above the cursor, or inside the window and not recorded, or below a window whose first
      ledger is not recorded. */
  ghost predicate Exposed(st: State, window: nat, r: Row)
    requires st.row.Some?
  {
    var from := WindowStart(st.row.value, window);
    r.ledger > st.row.value || (if from <= r.ledger then r.ledger !in st.history else from !in st.history)
  }

  /** The chain keeps the indexed chain full below ledger s and differs from it from there on. */
  ghost predicate PartsAt(chain: seq<Ledger>, full: seq<Ledger>, s: nat) {
    forall i :: 0 <= i < |chain| && i < |full| && i < s - 1 ==> chain[i] == full[i]
  }

  /** The hashes recorded below a ledger are the chain's. */
  ghost predicate OnChainBelow(h: map<nat, string>, chain: seq<Ledger>, s: nat) {
    forall k :: k in h && k < s ==> 1 <= k <= |chain| && h[k] == chain[k - 1].hash
  }

  /** If the chain parts at an exposed row, every mismatch that the scan sees lies above that row. */
  lemma MismatchIsAbove(st: State, window: nat, full: seq<Ledger>, chain: seq<Ledger>, r0: Row, page: seq<Ledger>,
                        i: nat)
    requires window > 0 && st.row.Some? && st.row.value > 0 && Exposed(st, window, r0)
    requires OnChainBelow(st.history, full, r0.ledger)
    requires Numbered(chain, 0) && PartsAt(chain, full, r0.ledger)
    requires IsWindow(page, chain, WindowStart(st.row.value, window), st.row.value)
    requires i < |page| && Mismatch(st.history, page[i])
    ensures page[i].sequence > r0.ledger && page[i].sequence > WindowStart(st.row.value, window)
  {
    var from := WindowStart(st.row.value, window);
    assert page[i] == chain[from - 1 + i];
  }

  /** Then the check completes and keeps the row. */
  lemma ExposedRowStays(st: State, window: nat, full: seq<Ledger>, e: Env, r0: Row)
    requires window > 0 && st.row.Some? && Exposed(st, window, r0) && r0 in st.rows
    requires OnChainBelow(st.history, full, r0.ledger)
    requires Numbered(e.chain, 0) && PartsAt(e.chain, full, r0.ledger) && e.windowOk && e.deleteOk && e.rewindOk
    ensures var res := CheckReorg(st, window, e, st.row.value); res.1 == Done && r0 in res.0.rows
  {
    if st.row.value > 0 {
      var page, fork := DetectFromScan(st.history, window, e.chain, st.row.value);
      LeastMismatchIsFirst(st.history, page, WindowStart(st.row.value, window) - 1);
      if fork != 0 {
        MismatchIsAbove(st, window, full, e.chain, r0, page, fork - WindowStart(st.row.value, window));
      }
    }
  }

  /** A branch of n ledgers that parts from the indexed chain at the row's ledger and abandons it. */
  lemma AbandoningBranch(full: seq<Ledger>, r0: Row, n: nat, world: set<Ledger>) returns (e: Env, wider: set<Ledger>)
    requires Linked(full, 0) && CollisionFree(world) && Within(full, world) && 0 < r0.ledger <= n
    ensures world <= wider && TwoBranches(full, 0, e.chain, wider)
    ensures |e.chain| == n && PartsAt(e.chain, full, r0.ledger)
    ensures e.chain[r0.ledger - 1].hash != r0.branch && e == CALM.(chain := e.chain)
  {
    var k := if r0.ledger - 1 < |full| then r0.ledger - 1 else |full|;
    var chain, all := SwapAbove(full, k, n, world, |r0.branch|);
    assert |chain[r0.ledger - 1].hash| > |r0.branch|;
    e, wider := CALM.(chain := chain), all;
  }

  /** An exposed row can be abandoned unnoticed: some branch in reach passes the check and the row
      stays. */
  lemma ExposedRowIsMissed(st: State, window: nat, full: seq<Ledger>, start: nat, r0: Row)
    returns (e: Env, world: set<Ledger>)
    requires window > 0 && st.row.Some? && OnChain(st.history, full)
    requires Linked(full, 0) && CollisionFree(LedgerSet(full))
    requires r0 in st.rows && start < r0.ledger && Exposed(st, window, r0)
    ensures InReach(st, window, e) && !RepairedBy(st, window, start, full, e, world)
  {
    var n: nat := Max(r0.ledger, WindowStart(st.row.value, window));
    e, world := AbandoningBranch(full, r0, n, LedgerSet(full));
    ExposedRowStays(st, window, full, e, r0);
  }

  lemma RecordedChainPasses(st: State, window: nat, full: seq<Ledger>, cursor: nat)
    requires OnChain(st.history, full) && Numbered(full, 0)
    ensures CheckReorg(st, window, CALM.(chain := full), cursor) == (st, Done, cursor)
  {
    OnChainIsConsistent(st.history, window, full, cursor);
  }

  lemma ChainAndItself(full: seq<Ledger>)
    requires Linked(full, 0) && CollisionFree(LedgerSet(full))
    ensures TwoBranches(full, 0, full, LedgerSet(full))
  {
  }

  lemma UnexposedIsReached(st: State, window: nat, full: seq<Ledger>, r0: Row)
    requires st.row.Some? && OnChain(st.history, full) && !Exposed(st, window, r0)
    ensures r0.ledger <= |full| && WindowStart(st.row.value, window) <= |full|
  {
  }

  /** A row that is not of the recorded chain is missed by the check of that very chain. */
  lemma StrayRowIsMissed(st: State, window: nat, full: seq<Ledger>, start: nat, r0: Row)
    requires window > 0 && st.row.Some? && OnChain(st.history, full)
    requires Linked(full, 0) && CollisionFree(LedgerSet(full))
    requires r0 in st.rows && start < r0.ledger && !Exposed(st, window, r0)
    requires r0.ledger <= |full| ==> r0.branch != full[r0.ledger - 1].hash
    ensures InReach(st, window, CALM.(chain := full))
    ensures !RepairedBy(st, window, start, full, CALM.(chain := full), LedgerSet(full))
  {
    UnexposedIsReached(st, window, full, r0);
    RecordedChainPasses(st, window, full, st.row.value);
    ChainAndItself(full);
    assert !NoAbandonedRow(st.rows, start, full);
  }

  // ---------------------------------------------------------------------------------------
  // The exact conditions
  // ---------------------------------------------------------------------------------------

  lemma GuardedIsRepaired(st: State, window: nat, full: seq<Ledger>, start: nat, e: Env, world: set<Ledger>)
    requires window > 0 && Guarded(st, window, start) && RowsOn(st.rows, start, full) && OnChain(st.history, full)
    requires InReach(st, window, e)
    ensures RepairedBy(st, window, start, full, e, world)
  {
    if TwoBranches(full, 0, e.chain, world) && CheckReorg(st, window, e, st.row.value).1 == Done {
      OnChainFollows(st, start, full);
      CheckRemains(st, window, e);
      RemainingRowsAgree(st, window, e, start, full, world, CheckReorg(st, window, e, st.row.value).0);
    }
  }

  /** The exact condition for a correct repair, for any rows, any cursor and any history whose hashes
      are those of one chain: the check repairs every swap to a chain in reach if and only if the state
      is guarded and its rows are of that one chain. */
  lemma RepairIsCorrectIffGuarded(st: State, window: nat, full: seq<Ledger>, start: nat)
    requires window > 0 && st.row.Some? && OnChain(st.history, full)
    requires Linked(full, 0) && CollisionFree(LedgerSet(full))
    ensures (Guarded(st, window, start) && RowsOn(st.rows, start, full)) <==>
      forall e, world :: InReach(st, window, e) ==> RepairedBy(st, window, start, full, e, world)
  {
    if Guarded(st, window, start) && RowsOn(st.rows, start, full) {
      forall e, world | InReach(st, window, e) ensures RepairedBy(st, window, start, full, e, world) {
        GuardedIsRepaired(st, window, full, start, e, world);
      }
    } else if !Guarded(st, window, start) {
      var r0 :| r0 in st.rows && start < r0.ledger && Exposed(st, window, r0);
      var e, world := ExposedRowIsMissed(st, window, full, start, r0);
      assert !RepairedBy(st, window, start, full, e, world);
    } else {
      var r0 :| r0 in st.rows && start < r0.ledger
        && (r0.ledger <= |full| ==> r0.branch != full[r0.ledger - 1].hash);
      StrayRowIsMissed(st, window, full, start, r0);
      assert !RepairedBy(st, window, start, full, CALM.(chain := full), LedgerSet(full));
    }
  }

  /** Every row above start is inside the window. */
  ghost predicate AllInWindow(st: State, window: nat, start: nat)
    requires st.row.Some?
  {
    forall r :: r in st.rows && start < r.ledger ==> WindowStart(st.row.value, window) <= r.ledger
  }

  /** A row below the window is missed when the new chain ends at it. */
  lemma ShortBranchIsMissed(st: State, window: nat, full: seq<Ledger>, start: nat, r0: Row)
    returns (e: Env, world: set<Ledger>)
    requires window > 0 && st.row.Some? && Linked(full, 0) && CollisionFree(LedgerSet(full))
    requires r0 in st.rows && start < r0.ledger < WindowStart(st.row.value, window)
    ensures |e.chain| == r0.ledger && !RepairedBy(st, window, start, full, e, world)
  {
    e, world := AbandoningBranch(full, r0, r0.ledger, LedgerSet(full));
    ShortChainIsNotChecked(st, window, e);
  }

  /** If the new chain may be of any length, also one that ends below the window, then the check repairs
      every swap if and only if, besides, no row lies below the window. */
  lemma RepairOfAnyLengthIsCorrectIff(st: State, window: nat, full: seq<Ledger>, start: nat)
    requires window > 0 && st.row.Some? && OnChain(st.history, full)
    requires Linked(full, 0) && CollisionFree(LedgerSet(full))
    ensures (Guarded(st, window, start) && RowsOn(st.rows, start, full) && AllInWindow(st, window, start)) <==>
      forall e, world :: RepairedBy(st, window, start, full, e, world)
  {
    RepairIsCorrectIffGuarded(st, window, full, start);
    if Guarded(st, window, start) && RowsOn(st.rows, start, full) {
      if AllInWindow(st, window, start) {
        forall e, world ensures RepairedBy(st, window, start, full, e, world) {
          if !InReach(st, window, e) {
            ShortChainKeepsHighRows(st, window, full, start, e, world);
          }
        }
      } else {
        var r0 :| r0 in st.rows && start < r0.ledger < WindowStart(st.row.value, window);
        var e, world := ShortBranchIsMissed(st, window, full, start, r0);
        assert !RepairedBy(st, window, start, full, e, world);
      }
    }
  }

  lemma ShortChainKeepsHighRows(st: State, window: nat, full: seq<Ledger>, start: nat, e: Env, world: set<Ledger>)
    requires window > 0 && st.row.Some? && AllInWindow(st, window, start) && !InReach(st, window, e)
    ensures RepairedBy(st, window, start, full, e, world)
  {
    if TwoBranches(full, 0, e.chain, world) && CheckReorg(st, window, e, st.row.value).1 == Done {
      CheckCompletes(st, window, e, st.row.value);
    }
  }
}
