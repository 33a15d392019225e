/**
When the reorg check protects the stored rows, stated on what the indexer itself stores: its rows, its
recorded hashes and its cursor.
 */
module Guards {
  import opened Ledgers
  import opened Reorg
  import opened Wrappers
  import opened Engine
  import LH = LedgerHistory

  /** Nothing above the cursor; a row inside the reorg window has its ledger recorded; and if some row
      lies below the window, then the first ledger of the window is recorded. */
  ghost predicate Guarded(st: State, window: nat, start: nat) {
    && st.row.Some?
    && var from := WindowStart(st.row.value, window);
       forall r :: r in st.rows && start < r.ledger ==>
         r.ledger <= st.row.value && if from <= r.ledger then r.ledger in st.history else from in st.history
  }

  /** Every row above start was derived from the chain. */
  ghost predicate RowsOn(rows: set<Row>, start: nat, chain: seq<Ledger>) {
    forall r :: r in rows && start < r.ledger ==> r.ledger <= |chain| && r.branch == chain[r.ledger - 1].hash
  }

  /** A recorded ledger with a row at it or below it: one whose hash vouches for a row. */
  ghost predicate Live(st: State, start: nat, s: nat) {
    s in st.history && exists r :: r in st.rows && start < r.ledger <= s
  }

  /** The hashes that vouch for a row are the chain's, as far as the chain goes. */
  ghost predicate VouchersAgree(st: State, start: nat, chain: seq<Ledger>) {
    forall s: nat :: Live(st, start, s) && s <= |chain| ==> st.history[s] == chain[s - 1].hash
  }

  /** All rows, and all hashes that vouch for one, stem from one chain. */
  ghost predicate Follows(st: State, start: nat, chain: seq<Ledger>) {
    && RowsOn(st.rows, start, chain)
    && forall s: nat :: Live(st, start, s) ==> s <= |chain| && st.history[s] == chain[s - 1].hash
  }

  lemma OnChainFollows(st: State, start: nat, chain: seq<Ledger>)
    requires RowsOn(st.rows, start, chain) && OnChain(st.history, chain)
    ensures Follows(st, start, chain)
  {
  }

  /** The scan compares every recorded ledger of its page below the fork that it finds. */
  lemma ScanCompares(h: map<nat, string>, page: seq<Ledger>, chain: seq<Ledger>, from: nat, cursor: nat, s: nat)
    requires IsWindow(page, chain, from, cursor) && Numbered(page, from - 1) && Numbered(chain, 0)
    requires s in h && from <= s <= cursor && s <= |chain|
    requires LeastMismatch(h, page) == 0 || s < LeastMismatch(h, page)
    ensures h[s] == chain[s - 1].hash
  {
    LeastMismatchIsFirst(h, page, from - 1);
    assert page[s - from] == chain[s - 1];
    assert !Mismatch(h, page[s - from]);
  }

  /** A check that completes has compared every recorded ledger of the window below the fork. */
  lemma Compared(h: map<nat, string>, window: nat, e: Env, cursor: nat, s: nat)
    requires window > 0 && Numbered(e.chain, 0) && s in h
    requires 0 < WindowStart(cursor, window) <= s <= cursor && s <= |e.chain|
    requires var r := Detect(h, window, e.chain, e.windowOk, cursor); r == Consistent || (r.Plan? && s < r.forkLedger)
    ensures h[s] == e.chain[s - 1].hash
  {
    var page, fork := DetectFromScan(h, window, e.chain, cursor);
    assert Detect(h, window, e.chain, e.windowOk, cursor) == Detect(h, window, e.chain, true, cursor);
    ScanCompares(h, page, e.chain, WindowStart(cursor, window), cursor, s);
  }

  /** The verdicts with which a check completes, and what it leaves. */
  lemma CheckCompletes(st: State, window: nat, e: Env, cursor: nat)
    requires window > 0 && Numbered(e.chain, 0) && CheckReorg(st, window, e, cursor).1 == Done
    ensures var r := Detect(st.history, window, e.chain, e.windowOk, cursor);
      var res := CheckReorg(st, window, e, cursor);
      && (r == Consistent || (r.Plan? && WindowStart(cursor, window) < r.forkLedger <= cursor))
      && (r == Consistent ==> res == (st, Done, cursor))
      && (r.Plan? ==> res.2 == r.forkLedger - 1 && res.0.row == (if st.row.Some? then Some(res.2) else None)
                      && res.0.rows == RowsBelow(st.rows, r.forkLedger)
                      && res.0.history == LH.Truncated(st.history, r.forkLedger)
                      && WindowStart(cursor, window) <= |e.chain|)
  {
    var r := Detect(st.history, window, e.chain, e.windowOk, cursor);
    if r.Plan? {
      var page, fork := DetectFromScan(st.history, window, e.chain, cursor);
      LeastMismatchIsFirst(st.history, page, WindowStart(cursor, window) - 1);
    }
  }

  /** What survives a completed check is a recorded ledger or a row of before, below the fork. */
  ghost predicate Survives(st: State, window: nat, e: Env, s: nat)
    requires st.row.Some?
  {
    var r := Detect(st.history, window, e.chain, e.windowOk, st.row.value);
    r == Consistent || (r.Plan? && s < r.forkLedger)
  }

  /** A guarded state meets a chain: whatever survives the check at a guarded ledger is the chain's. */
  lemma GuardedLedgerAgrees(st: State, window: nat, e: Env, start: nat, full: seq<Ledger>, world: set<Ledger>, s: nat)
    requires window > 0 && Guarded(st, window, start) && Follows(st, start, full)
    requires TwoBranches(full, 0, e.chain, world) && WindowStart(st.row.value, window) <= |e.chain|
    requires 0 < s <= |full| && s <= st.row.value && s <= |e.chain| && Survives(st, window, e, s)
    requires exists r :: r in st.rows && start < r.ledger <= s
    requires WindowStart(st.row.value, window) <= s ==> s in st.history
    requires Survives(st, window, e, WindowStart(st.row.value, window))
    ensures full[s - 1].hash == e.chain[s - 1].hash
  {
    var from := WindowStart(st.row.value, window);
    if from <= s {
      assert Live(st, start, s);
      Compared(st.history, window, e, st.row.value, s);
    } else {
      var r :| r in st.rows && start < r.ledger <= s;
      assert Live(st, start, from);
      Compared(st.history, window, e, st.row.value, from);
      MeetingBranchesShareThePast(full, 0, e.chain, world, from, s);
    }
  }

  /** res is what a completed check leaves of st: nothing new, and nothing at or above the fork. */
  ghost predicate Remains(st: State, window: nat, e: Env, res: State)
    requires st.row.Some?
  {
    && res.rows <= st.rows && (forall r :: r in res.rows ==> Survives(st, window, e, r.ledger))
    && (forall s :: s in res.history ==>
        s in st.history && res.history[s] == st.history[s] && Survives(st, window, e, s))
    && Survives(st, window, e, WindowStart(st.row.value, window))
  }

  lemma CheckRemains(st: State, window: nat, e: Env)
    requires window > 0 && st.row.Some? && Numbered(e.chain, 0) && CheckReorg(st, window, e, st.row.value).1 == Done
    ensures Remains(st, window, e, CheckReorg(st, window, e, st.row.value).0)
  {
    CheckCompletes(st, window, e, st.row.value);
  }

  lemma RemainingRowsAgree(st: State, window: nat, e: Env, start: nat, full: seq<Ledger>, world: set<Ledger>,
                           res: State)
    requires window > 0 && Guarded(st, window, start) && Follows(st, start, full) && Remains(st, window, e, res)
    requires TwoBranches(full, 0, e.chain, world) && WindowStart(st.row.value, window) <= |e.chain|
    ensures NoAbandonedRow(res.rows, start, e.chain)
  {
    forall r | r in res.rows && start < r.ledger <= |e.chain| ensures r.branch == e.chain[r.ledger - 1].hash {
      GuardedLedgerAgrees(st, window, e, start, full, world, r.ledger);
    }
  }

  lemma RemainingVouchersAgree(st: State, window: nat, e: Env, start: nat, full: seq<Ledger>, world: set<Ledger>,
                               res: State)
    requires window > 0 && Guarded(st, window, start) && Follows(st, start, full) && Remains(st, window, e, res)
    requires TwoBranches(full, 0, e.chain, world) && WindowStart(st.row.value, window) <= |e.chain|
    requires forall s :: s in st.history ==> s <= st.row.value
    ensures VouchersAgree(res, start, e.chain)
  {
    forall s: nat | Live(res, start, s) && s <= |e.chain| ensures res.history[s] == e.chain[s - 1].hash {
      assert Live(st, start, s);
      GuardedLedgerAgrees(st, window, e, start, full, world, s);
    }
  }
}
