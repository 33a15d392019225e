/**
The poll cycle of the indexer engine: reorg check, rollback, replay and checkpoint.

A poll sees one canonical chain for its whole duration; between polls the environment may
replace the chain by any other branch. Every call that can fail in the program is a flag of
the poll's environment.
 */
module Engine {
  import opened Ledgers
  import opened Reorg
  import opened Cursors
  import opened Wrappers
  import LH = LedgerHistory

  /** A filtered transaction and its events whose insert statements go through. An event is named
      by its contract and type; a failing operation or insert leaves the other events in. */
  datatype Tx = Tx(hash: string, events: seq<string>)

  /** A contract_events row. branch is the hash of the ledger it was derived from; the table has
      no such column, it only names the row's origin. */
  datatype Row = Row(ledger: nat, branch: string, tx: string, event: string)

  /** What a process writes to while it delivers: the event table and its own deduplicator. */
  datatype Sink = Sink(rows: set<Row>, seen: set<string>)

  datatype State = State(row: Option<nat>, history: map<nat, string>, rows: set<Row>, seen: set<string>)

  /** The world during one poll. A ledger missing from txns is one whose transactions could not
      be fetched; expired are the hashes the deduplicator has aged out since the last poll. */
  datatype Env = Env(chain: seq<Ledger>, batchSize: nat, txns: map<nat, seq<Tx>>, expired: set<string>,
                     readOk: bool, windowOk: bool, deleteOk: bool, rewindOk: bool, fetchOk: bool, updateOk: bool)

  datatype Outcome = Done | ReadFailed | CheckFailed | ReorgTooDeep | RollbackFailed | FetchError | CheckpointFailed

  // ---------------------------------------------------------------------------------------
  // The steps of a poll as functions of the state
  // ---------------------------------------------------------------------------------------

  ghost function RowsBelow(rows: set<Row>, fork: nat): (r: set<Row>) {
    set x | x in rows && x.ledger < fork
  }

  /** What the rollback leaves when the reorg check ends with verdict r. */
  ghost function Rollback(st: State, r: Check, e: Env, cursor: nat): (res: (State, Outcome, nat)) {
    match r
    case Consistent => (st, Done, cursor)
    case FetchFailed => (st, CheckFailed, cursor)
    case TooDeep(_, _) => (st, ReorgTooDeep, cursor)
    case Plan(fork, last, _) =>
      if !e.deleteOk then (st, RollbackFailed, cursor)
      else if !e.rewindOk then (st.(rows := RowsBelow(st.rows, fork)), RollbackFailed, cursor)
      else (State(if st.row.Some? then Some(last) else None, LH.Truncated(st.history, fork),
          RowsBelow(st.rows, fork), st.seen), Done, last)
  }

  ghost function CheckReorg(st: State, window: nat, e: Env, cursor: nat): (res: (State, Outcome, nat)) {
    Rollback(st, Detect(st.history, window, e.chain, e.windowOk, cursor), e, cursor)
  }

  /** The unique index of the table: some row of this transaction and event is there. */
  ghost predicate Taken(rows: set<Row>, tx: string, event: string) {
    exists r :: r in rows && r.tx == tx && r.event == event
  }

  /** A row for each event of the transaction, except where the unique index has one already. */
  ghost function Store(rows: set<Row>, l: Ledger, hash: string, events: seq<string>): (r: set<Row>) {
    rows + set event | event in events && !Taken(rows, hash, event) :: Row(l.sequence, l.hash, hash, event)
  }

  ghost function Deliver(sink: Sink, l: Ledger, txs: seq<Tx>): (r: Sink) {
    if txs == [] then sink
    else
      var before, tx := Deliver(sink, l, txs[..|txs| - 1]), txs[|txs| - 1];
      if tx.hash in before.seen then before
      else Sink(Store(before.rows, l, tx.hash, tx.events), before.seen + {tx.hash})
  }

  /** The transactions of a ledger; none when they could not be fetched. */
  ghost function TxsOf(txns: map<nat, seq<Tx>>, l: Ledger): (txs: seq<Tx>) {
    if l.sequence in txns then txns[l.sequence] else []
  }

  ghost function Visit(st: State, window: nat, l: Ledger, txns: map<nat, seq<Tx>>): (r: State) {
    var sink := Deliver(Sink(st.rows, st.seen), l, TxsOf(txns, l));
    State(st.row, LH.Recorded(st.history, window, l.sequence, l.hash), sink.rows, sink.seen)
  }

  ghost function VisitAll(st: State, window: nat, page: seq<Ledger>, txns: map<nat, seq<Tx>>): (r: State) {
    if page == [] then st
    else Visit(VisitAll(st, window, page[..|page| - 1], txns), window, page[|page| - 1], txns)
  }

  ghost function Poll(st0: State, window: nat, e: Env): (r: (State, Outcome)) {
    var st := st0.(seen := st0.seen - e.expired);
    if !e.readOk || st.row.None? then (st, ReadFailed)
    else PollFrom(st, window, e, CheckReorg(st, window, e, st.row.value))
  }

  ghost function PollFrom(st: State, window: nat, e: Env, checked: (State, Outcome, nat)): (r: (State, Outcome)) {
    if checked.1 != Done then (checked.0, checked.1) else Replay(checked.0, window, e, checked.2)
  }

  /** Reads the next page after the cursor, visits its ledgers and moves the cursor row. */
  ghost function Replay(st: State, window: nat, e: Env, cursor: nat): (r: (State, Outcome)) {
    if !e.fetchOk then (st, FetchError)
    else
      var page := FetchLedgers(e.chain, cursor, e.batchSize);
      var visited := VisitAll(st, window, page, e.txns);
      if page == [] then (visited, Done)
      else if !e.updateOk then (visited, CheckpointFailed)
      else (visited.(row := Advanced(visited.row, page[|page| - 1].sequence)), Done)
  }

  // ---------------------------------------------------------------------------------------
  // The indexed branch
  // ---------------------------------------------------------------------------------------

  /** Every row above start was derived from the ledger that the branch ix holds there. */
  ghost predicate RowsFrom(rows: set<Row>, ix: seq<Ledger>, start: nat) {
    forall r :: r in rows && start < r.ledger ==> r.ledger <= start + |ix| && r.branch == ix[r.ledger - start - 1].hash
  }

  /** The state has indexed exactly the branch ix, that is the ledgers start+1 up to the cursor. */
  ghost predicate Indexed(st: State, ix: seq<Ledger>, start: nat) {
    && st.row == Some(start + |ix|)
    && Linked(ix, start)
    && RecordedFrom(st.history, ix, start)
    && RowsFrom(st.rows, ix, start)
  }

  /** No row above start stems from a branch other than the chain. */
  ghost predicate NoAbandonedRow(rows: set<Row>, start: nat, chain: seq<Ledger>) {
    forall r :: r in rows && start < r.ledger <= |chain| ==> r.branch == chain[r.ledger - 1].hash
  }

  lemma {:induction false} DeliverKeeps(sink: Sink, l: Ledger, txs: seq<Tx>)
    ensures var d := Deliver(sink, l, txs);
      && sink.rows <= d.rows
      && forall r :: r in d.rows ==> r in sink.rows || (r.ledger == l.sequence && r.branch == l.hash)
  {
    if txs != [] {
      DeliverKeeps(sink, l, txs[..|txs| - 1]);
    }
  }

  lemma {:induction false} VisitAllKeepsRow(st: State, window: nat, page: seq<Ledger>, txns: map<nat, seq<Tx>>)
    ensures VisitAll(st, window, page, txns).row == st.row
  {
    if page != [] {
      VisitAllKeepsRow(st, window, page[..|page| - 1], txns);
    }
  }

  lemma VisitExtendsBranch(st: State, window: nat, l: Ledger, txns: map<nat, seq<Tx>>, ix: seq<Ledger>, start: nat,
                           longer: seq<Ledger>)
    requires RecordedFrom(st.history, ix, start) && RowsFrom(st.rows, ix, start)
    requires l.sequence == start + |ix| + 1 && longer == ix + [l]
    ensures var v := Visit(st, window, l, txns);
      RecordedFrom(v.history, longer, start) && RowsFrom(v.rows, longer, start)
  {
    DeliverKeeps(Sink(st.rows, st.seen), l, TxsOf(txns, l));
  }

  lemma {:induction false} VisitAllExtendsBranch(st: State, window: nat, page: seq<Ledger>, txns: map<nat, seq<Tx>>,
                                                 ix: seq<Ledger>, start: nat)
    requires RecordedFrom(st.history, ix, start) && RowsFrom(st.rows, ix, start)
    requires Numbered(page, start + |ix|)
    ensures var v := VisitAll(st, window, page, txns);
      RecordedFrom(v.history, ix + page, start) && RowsFrom(v.rows, ix + page, start)
  {
    if page == [] {
      assert ix + page == ix;
    } else {
      var init, l := page[..|page| - 1], page[|page| - 1];
      VisitAllExtendsBranch(st, window, init, txns, ix, start);
      VisitExtendsBranch(VisitAll(st, window, init, txns), window, l, txns, ix + init, start, ix + page);
    }
  }

  /** Two linked stretches that fit together are linked. */
  lemma LinkedJoins(ix: seq<Ledger>, page: seq<Ledger>, start: nat)
    requires Linked(ix, start) && Linked(page, start + |ix|)
    requires ix != [] && page != [] ==> page[0].prevHash == ix[|ix| - 1].hash
    ensures Linked(ix + page, start)
  {
    var next := ix + page;
    forall i | 0 < i < |next| ensures next[i].prevHash == next[i - 1].hash {
      if i < |ix| {
        assert ix[i].prevHash == ix[i - 1].hash;
      } else if i > |ix| {
        assert page[i - |ix|].prevHash == page[i - |ix| - 1].hash;
      }
    }
  }

  lemma PageIsLinked(chain: seq<Ledger>, cursor: nat, limit: nat)
    requires Linked(chain, 0)
    ensures Linked(FetchLedgers(chain, cursor, limit), cursor)
  {
    FetchedPage(chain, cursor, limit);
    var page := FetchLedgers(chain, cursor, limit);
    forall i | 0 < i < |page| ensures page[i].prevHash == page[i - 1].hash {
      assert chain[cursor + i].prevHash == chain[cursor + i - 1].hash;
    }
  }

  lemma PageAgrees(ix: seq<Ledger>, start: nat, chain: seq<Ledger>, limit: nat)
    requires Agrees(ix, start, chain)
    ensures Agrees(ix + FetchLedgers(chain, start + |ix|, limit), start, chain)
  {
    var cursor := start + |ix|;
    var page := FetchLedgers(chain, cursor, limit);
    FetchedPage(chain, cursor, limit);
    var next := ix + page;
    forall s | start < s <= start + |next| && s <= |chain| ensures SameAt(next, start, chain, s) {
      if s <= cursor {
        assert SameAt(ix, start, chain, s);
      } else {
        assert page[s - cursor - 1] == chain[s - 1];
      }
    }
  }

  lemma PageFits(ix: seq<Ledger>, start: nat, chain: seq<Ledger>, limit: nat)
    requires Linked(chain, 0) && Agrees(ix, start, chain)
    requires ix != [] && FetchLedgers(chain, start + |ix|, limit) != []
    ensures FetchLedgers(chain, start + |ix|, limit)[0].prevHash == ix[|ix| - 1].hash
  {
    var cursor := start + |ix|;
    FetchedPage(chain, cursor, limit);
    assert SameAt(ix, start, chain, cursor);
    assert chain[cursor].prevHash == chain[cursor - 1].hash;
  }

  /** The next page of a chain that the branch agrees with continues the branch. */
  lemma PageContinuesBranch(ix: seq<Ledger>, start: nat, chain: seq<Ledger>, limit: nat) returns (page: seq<Ledger>)
    requires Linked(ix, start) && Linked(chain, 0) && Agrees(ix, start, chain)
    ensures page == FetchLedgers(chain, start + |ix|, limit) && Numbered(page, start + |ix|)
    ensures Linked(ix + page, start) && Agrees(ix + page, start, chain)
  {
    page := FetchLedgers(chain, start + |ix|, limit);
    PageIsLinked(chain, start + |ix|, limit);
    PageAgrees(ix, start, chain, limit);
    if page != [] && ix != [] {
      PageFits(ix, start, chain, limit);
    }
    LinkedJoins(ix, page, start);
  }

  lemma ReplayMoves(st: State, window: nat, e: Env, cursor: nat, page: seq<Ledger>)
    requires st.row == Some(cursor) && Numbered(e.chain, 0) && Replay(st, window, e, cursor).1 == Done
    requires page == FetchLedgers(e.chain, cursor, e.batchSize)
    ensures Replay(st, window, e, cursor).0 == VisitAll(st, window, page, e.txns).(row := Some(cursor + |page|))
  {
    FetchedPage(e.chain, cursor, e.batchSize);
    VisitAllKeepsRow(st, window, page, e.txns);
    if page != [] {
      assert page[|page| - 1].sequence == cursor + |page|;
    }
  }

  // ---------------------------------------------------------------------------------------
  // One repair
  // ---------------------------------------------------------------------------------------

  /** Cutting the indexed branch at the fork leaves the part both branches share. */
  lemma CutAtFork(st: State, ix: seq<Ledger>, start: nat, chain: seq<Ledger>, f: nat)
    requires Indexed(st, ix, start) && IsFork(ix, start, chain, f)
    ensures var kept := ix[..f - 1 - start];
      && Linked(kept, start) && Agrees(kept, start, chain)
      && RecordedFrom(LH.Truncated(st.history, f), kept, start)
      && RowsFrom(RowsBelow(st.rows, f), kept, start)
  {
    var kept := ix[..f - 1 - start];
    forall s | start < s <= start + |kept| && s <= |chain| ensures SameAt(kept, start, chain, s) {
      assert SameAt(ix, start, chain, s);
    }
  }

  /** The reorg check with verdict r leaves the part kept of the indexed branch ix. */
  ghost predicate Repaired(res: (State, Outcome, nat), ix: seq<Ledger>, kept: seq<Ledger>, start: nat,
                           chain: seq<Ledger>, from: nat) {
    && kept <= ix && Indexed(res.0, kept, start)
    && res.1 != CheckpointFailed
    && (res.1 != Done ==> kept == ix)
    && (res.1 == Done ==> res.2 == start + |kept|)
    && (res.1 == Done && kept != ix ==> IsFork(ix, start, chain, res.2 + 1))
    && (res.1 == Done && from <= |chain| ==> Agrees(kept, start, chain))
    && (|chain| < from ==> kept == ix)
  }

  lemma PlanRepairs(st: State, r: Check, e: Env, ix: seq<Ledger>, start: nat, from: nat) returns (kept: seq<Ledger>)
    requires Indexed(st, ix, start) && r.Plan? && e.deleteOk && e.rewindOk
    requires IsFork(ix, start, e.chain, r.forkLedger) && r.lastLedger == r.forkLedger - 1 && from < r.forkLedger
    ensures Repaired(Rollback(st, r, e, start + |ix|), ix, kept, start, e.chain, from)
  {
    CutAtFork(st, ix, start, e.chain, r.forkLedger);
    kept := ix[..r.forkLedger - 1 - start];
  }

  /** A check that rolls nothing back leaves the whole branch. */
  lemma NothingRolledBack(st: State, r: Check, e: Env, ix: seq<Ledger>, start: nat, from: nat)
    requires Indexed(st, ix, start) && (r.Plan? ==> !(e.deleteOk && e.rewindOk))
    requires r == Consistent && from <= |e.chain| ==> Agrees(ix, start, e.chain)
    ensures Repaired(Rollback(st, r, e, start + |ix|), ix, ix, start, e.chain, from)
  {
  }

  lemma RollbackRepairs(st: State, r: Check, e: Env, ix: seq<Ledger>, start: nat, from: nat)
    returns (kept: seq<Ledger>)
    requires Indexed(st, ix, start)
    requires ExactVerdict(r, ix, start, e.chain, from) || r == FetchFailed
    ensures Repaired(Rollback(st, r, e, start + |ix|), ix, kept, start, e.chain, from)
  {
    if r.Plan? && e.deleteOk && e.rewindOk {
      kept := PlanRepairs(st, r, e, ix, start, from);
    } else {
      kept := ix;
      NothingRolledBack(st, r, e, ix, start, from);
    }
  }

  /** On a covered window a completed reorg check leaves an indexed branch that agrees with the
      chain: either the whole old branch or the part of it below the fork. A check that does not
      complete leaves the branch as it was. */
  lemma CheckRepairs(st: State, window: nat, e: Env, ix: seq<Ledger>, start: nat, world: set<Ledger>)
    returns (kept: seq<Ledger>)
    requires window > 0 && Indexed(st, ix, start) && TwoBranches(ix, start, e.chain, world)
    requires Covers(st.history, start, start + |ix|, window)
    ensures Repaired(CheckReorg(st, window, e, start + |ix|), ix, kept, start, e.chain,
        WindowStart(start + |ix|, window))
  {
    var r := Detect(st.history, window, e.chain, e.windowOk, start + |ix|);
    DetectionIsExact(st.history, window, ix, start, e.chain, world);
    assert e.windowOk || r == Consistent || r == FetchFailed;
    assert r == Consistent && !e.windowOk ==> Detect(st.history, window, e.chain, true, start + |ix|) == Consistent;
    kept := RollbackRepairs(st, r, e, ix, start, WindowStart(start + |ix|, window));
  }

  /** After a completed rollback no row is left at or above the fork, the cursor stands just below
      it, and the history holds canonical hashes only. */
  ghost predicate RolledBackTo(st: State, res: (State, Outcome, nat), start: nat, chain: seq<Ledger>, f: nat) {
    && f > 0 && res.1 == Done && res.0.row == Some(f - 1) && res.2 == f - 1
    && (forall r :: r in res.0.rows <==> r in st.rows && r.ledger < f)
    && OnChain(res.0.history, chain)
    && NoAbandonedRow(res.0.rows, start, chain)
  }

  /** Cutting the recorded hashes at the fork leaves the ones that the chain shares. */
  ghost predicate CutOnChain(h: map<nat, string>, r: Check, chain: seq<Ledger>) {
    r.Plan? && OnChain(LH.Truncated(h, r.forkLedger), chain)
  }

  lemma ForkCutsOnChain(h: map<nat, string>, r: Check, ix: seq<Ledger>, start: nat, chain: seq<Ledger>)
    requires RecordedFrom(h, ix, start) && r.Plan? && IsFork(ix, start, chain, r.forkLedger)
    ensures CutOnChain(h, r, chain)
  {
    var kept := LH.Truncated(h, r.forkLedger);
    forall s | s in kept ensures 1 <= s <= |chain| && kept[s] == chain[s - 1].hash {
      assert SameAt(ix, start, chain, s);
    }
  }

  lemma PlanRollsBack(st: State, r: Check, e: Env, ix: seq<Ledger>, start: nat)
    requires Indexed(st, ix, start) && r.Plan? && e.deleteOk && e.rewindOk
    requires IsFork(ix, start, e.chain, r.forkLedger) && r.lastLedger == r.forkLedger - 1
    ensures RolledBackTo(st, Rollback(st, r, e, start + |ix|), start, e.chain, r.forkLedger)
  {
    CutAtFork(st, ix, start, e.chain, r.forkLedger);
    AgreeingRows(RowsBelow(st.rows, r.forkLedger), ix[..r.forkLedger - 1 - start], start, e.chain);
    ForkCutsOnChain(st.history, r, ix, start, e.chain);
  }

  /** The chain of e forks off the indexed branch at ledger f inside a covered window, and nothing
      that the repair needs fails. */
  ghost predicate Forked(st: State, window: nat, e: Env, ix: seq<Ledger>, start: nat, world: set<Ledger>, f: nat) {
    && window > 0 && Indexed(st, ix, start) && TwoBranches(ix, start, e.chain, world)
    && Covers(st.history, start, start + |ix|, window)
    && IsFork(ix, start, e.chain, f) && WindowStart(start + |ix|, window) < f
    && e.readOk && e.windowOk && e.deleteOk && e.rewindOk
  }

  /** A fork inside a covered window is rolled back completely by one check. */
  lemma RollbackIsComplete(st: State, window: nat, e: Env, ix: seq<Ledger>, start: nat, world: set<Ledger>, f: nat)
    requires Forked(st, window, e, ix, start, world, f)
    ensures RolledBackTo(st, CheckReorg(st, window, e, start + |ix|), start, e.chain, f)
  {
    DetectionIsExact(st.history, window, ix, start, e.chain, world);
    PlanRollsBack(st, Detect(st.history, window, e.chain, true, start + |ix|), e, ix, start);
  }

  lemma AgreeingRows(rows: set<Row>, ix: seq<Ledger>, start: nat, chain: seq<Ledger>)
    requires RowsFrom(rows, ix, start) && Agrees(ix, start, chain)
    ensures NoAbandonedRow(rows, start, chain)
  {
    forall r | r in rows && start < r.ledger <= |chain| ensures r.branch == chain[r.ledger - 1].hash {
      assert SameAt(ix, start, chain, r.ledger);
    }
  }

  /** A rollback that fails in the delete or in the rewind is found again: the next check of the
      same chain yields the same plan, and a second rollback ends where the first would have. */
  lemma FailedRollbackIsRetried(st: State, window: nat, e: Env, retry: Env, cursor: nat)
    requires Detect(st.history, window, e.chain, true, cursor).Plan?
    requires e.windowOk && !(e.deleteOk && e.rewindOk)
    requires retry == e.(deleteOk := true, rewindOk := true)
    ensures var (c, outcome, _) := CheckReorg(st, window, e, cursor);
      && outcome == RollbackFailed && c.row == st.row && c.history == st.history
      && (forall r :: r in c.rows <==>
            r in st.rows && (e.deleteOk ==> r.ledger < Detect(st.history, window, e.chain, true, cursor).forkLedger))
      && Detect(c.history, window, e.chain, true, cursor) == Detect(st.history, window, e.chain, true, cursor)
      && CheckReorg(c, window, retry, cursor) == CheckReorg(st, window, retry, cursor)
  {
    var fork := Detect(st.history, window, e.chain, true, cursor).forkLedger;
    assert RowsBelow(RowsBelow(st.rows, fork), fork) == RowsBelow(st.rows, fork);
  }

  // ---------------------------------------------------------------------------------------
  // Settled states stay settled
  // ---------------------------------------------------------------------------------------

  /** Every recorded hash is the canonical hash of its ledger. */
  ghost predicate OnChain(h: map<nat, string>, chain: seq<Ledger>) {
    forall s :: s in h ==> 1 <= s <= |chain| && h[s] == chain[s - 1].hash
  }

  lemma VisitStaysOnChain(st: State, window: nat, l: Ledger, txns: map<nat, seq<Tx>>, chain: seq<Ledger>)
    requires OnChain(st.history, chain) && Numbered(chain, 0) && l in chain
    ensures OnChain(Visit(st, window, l, txns).history, chain)
  {
  }

  lemma {:induction false} VisitAllStaysOnChain(st: State, window: nat, page: seq<Ledger>, txns: map<nat, seq<Tx>>,
                                                chain: seq<Ledger>)
    requires OnChain(st.history, chain) && Numbered(chain, 0)
    requires forall l :: l in page ==> l in chain
    ensures OnChain(VisitAll(st, window, page, txns).history, chain)
  {
    if page != [] {
      var init, l := page[..|page| - 1], page[|page| - 1];
      assert l in page;
      VisitAllStaysOnChain(st, window, init, txns, chain);
      VisitStaysOnChain(VisitAll(st, window, init, txns), window, l, txns, chain);
    }
  }

  lemma OnChainHasNoMismatch(h: map<nat, string>, page: seq<Ledger>, chain: seq<Ledger>, from: nat, cursor: nat)
    requires OnChain(h, chain) && Numbered(chain, 0) && IsWindow(page, chain, from, cursor) && Numbered(page, from - 1)
    ensures LeastMismatch(h, page) == 0
  {
    forall i | 0 <= i < |page| ensures !Mismatch(h, page[i]) {
      assert page[i] == chain[from - 1 + i];
    }
    LeastMismatchIsFirst(h, page, from - 1);
  }

  lemma OnChainIsConsistent(h: map<nat, string>, window: nat, chain: seq<Ledger>, cursor: nat)
    requires OnChain(h, chain) && Numbered(chain, 0)
    ensures Detect(h, window, chain, true, cursor) == Consistent
  {
    if window > 0 && cursor > 0 {
      var page, fork := DetectFromScan(h, window, chain, cursor);
      OnChainHasNoMismatch(h, page, chain, WindowStart(cursor, window), cursor);
    }
  }

  lemma PollStaysOnChain(st: State, window: nat, e: Env)
    requires OnChain(st.history, e.chain) && Numbered(e.chain, 0)
    ensures OnChain(Poll(st, window, e).0.history, e.chain)
    ensures Poll(st, window, e).1 !in {ReorgTooDeep, RollbackFailed}
  {
    var st1 := st.(seen := st.seen - e.expired);
    if e.readOk && st.row.Some? {
      var cursor := st.row.value;
      OnChainIsConsistent(st1.history, window, e.chain, cursor);
      if e.fetchOk {
        FetchedPage(e.chain, cursor, e.batchSize);
        VisitAllStaysOnChain(st1, window, FetchLedgers(e.chain, cursor, e.batchSize), e.txns, e.chain);
      }
    }
  }

  // ---------------------------------------------------------------------------------------
  // One poll over changing chains
  // ---------------------------------------------------------------------------------------

  lemma PageIsIndexed(st: State, window: nat, page: seq<Ledger>, txns: map<nat, seq<Tx>>, ix: seq<Ledger>, start: nat)
    requires Indexed(st, ix, start) && Numbered(page, start + |ix|) && Linked(ix + page, start)
    ensures Indexed(VisitAll(st, window, page, txns).(row := Some(start + |ix| + |page|)), ix + page, start)
  {
    VisitAllExtendsBranch(st, window, page, txns, ix, start);
  }

  lemma ReplayIsIndexed(st: State, window: nat, e: Env, ix: seq<Ledger>, start: nat, page: seq<Ledger>,
                        next: seq<Ledger>)
    requires Indexed(st, ix, start) && Numbered(e.chain, 0) && Replay(st, window, e, start + |ix|).1 == Done
    requires page == FetchLedgers(e.chain, start + |ix|, e.batchSize) && Numbered(page, start + |ix|)
    requires next == ix + page && Linked(next, start)
    ensures Indexed(Replay(st, window, e, start + |ix|).0, next, start)
  {
    PageIsIndexed(st, window, page, e.txns, ix, start);
    ReplayMoves(st, window, e, start + |ix|, page);
  }

  lemma WithinJoins(ix: seq<Ledger>, chain: seq<Ledger>, cursor: nat, limit: nat, world: set<Ledger>)
    requires Within(ix, world) && Within(chain, world)
    ensures Within(ix + FetchLedgers(chain, cursor, limit), world)
  {
    FetchedPage(chain, cursor, limit);
  }

  /** Replaying from the cursor of a branch that agrees with the chain extends that branch. */
  lemma ReplayExtendsBranch(st: State, window: nat, e: Env, ix: seq<Ledger>, start: nat, world: set<Ledger>)
    returns (next: seq<Ledger>)
    requires Indexed(st, ix, start) && TwoBranches(ix, start, e.chain, world)
    requires start + |ix| < |e.chain| ==> Agrees(ix, start, e.chain)
    requires Replay(st, window, e, start + |ix|).1 != CheckpointFailed
    ensures Indexed(Replay(st, window, e, start + |ix|).0, next, start) && Within(next, world)
    ensures Agrees(ix, start, e.chain) ==> Agrees(next, start, e.chain)
    ensures !e.fetchOk || |e.chain| <= start + |ix| ==> next == ix
  {
    next := ix;
    if e.fetchOk && start + |ix| < |e.chain| {
      next := PageExtendsBranch(st, window, e, ix, start, world);
    }
  }

  lemma PageExtendsBranch(st: State, window: nat, e: Env, ix: seq<Ledger>, start: nat, world: set<Ledger>)
    returns (next: seq<Ledger>)
    requires Indexed(st, ix, start) && TwoBranches(ix, start, e.chain, world) && Agrees(ix, start, e.chain)
    requires Replay(st, window, e, start + |ix|).1 == Done
    ensures Indexed(Replay(st, window, e, start + |ix|).0, next, start) && Within(next, world)
    ensures Agrees(next, start, e.chain)
  {
    var page := PageContinuesBranch(ix, start, e.chain, e.batchSize);
    next := ix + page;
    ReplayIsIndexed(st, window, e, ix, start, page, next);
    WithinJoins(ix, e.chain, start + |ix|, e.batchSize, world);
  }

  lemma PollFromRepaired(st: State, window: nat, e: Env, checked: (State, Outcome, nat), ix: seq<Ledger>,
                         kept: seq<Ledger>, start: nat, world: set<Ledger>, from: nat)
    returns (next: seq<Ledger>)
    requires Repaired(checked, ix, kept, start, e.chain, from)
    requires TwoBranches(ix, start, e.chain, world) && from <= start + |ix| + 1
    ensures PollFrom(st, window, e, checked).1 != CheckpointFailed ==>
      BranchAfter(PollFrom(st, window, e, checked), ix, next, start, e.chain, world, from)
  {
    next := kept;
    if checked.1 == Done && Replay(checked.0, window, e, checked.2).1 != CheckpointFailed {
      next := ReplayExtendsBranch(checked.0, window, e, kept, start, world);
    }
  }

  /** The state after a poll has indexed the branch next, which agrees with the chain if the poll
      completed and the chain reaches the window. */
  ghost predicate BranchAfter(res: (State, Outcome), ix: seq<Ledger>, next: seq<Ledger>, start: nat, chain: seq<Ledger>,
                              world: set<Ledger>, from: nat)
  {
    && Indexed(res.0, next, start) && Within(next, world)
    && (if res.1 == Done && from <= |chain| then Agrees(next, start, chain) else next <= ix)
  }

  lemma PollUnfolds(st: State, window: nat, e: Env, cursor: nat)
    requires st.row == Some(cursor)
    ensures var st1 := st.(seen := st.seen - e.expired);
      Poll(st, window, e) == if e.readOk then PollFrom(st1, window, e, CheckReorg(st1, window, e, cursor))
          else (st1, ReadFailed)
  {
  }

  lemma RecordsOnChain(h: map<nat, string>, ix: seq<Ledger>, start: nat, chain: seq<Ledger>)
    requires RecordedFrom(h, ix, start) && Agrees(ix, start, chain) && start + |ix| <= |chain|
    ensures OnChain(h, chain)
  {
    forall s | s in h ensures 1 <= s <= |chain| && h[s] == chain[s - 1].hash {
      assert SameAt(ix, start, chain, s);
    }
  }

  /** On a chain that extends the indexed branch the check changes nothing, covered or not. */
  lemma CheckOnExtension(st: State, window: nat, e: Env, ix: seq<Ledger>, start: nat, from: nat)
    requires Indexed(st, ix, start) && Numbered(e.chain, 0)
    requires Agrees(ix, start, e.chain) && start + |ix| <= |e.chain|
    ensures Repaired(CheckReorg(st, window, e, start + |ix|), ix, ix, start, e.chain, from)
  {
    RecordsOnChain(st.history, ix, start, e.chain);
    OnChainIsConsistent(st.history, window, e.chain, start + |ix|);
    var r := Detect(st.history, window, e.chain, e.windowOk, start + |ix|);
    assert r == Consistent || r == FetchFailed;
  }

  /** The reorg check, either from a covered state or on a chain that extends the indexed branch. */
  lemma CheckKeepsOneBranch(st: State, window: nat, e: Env, ix: seq<Ledger>, start: nat, world: set<Ledger>)
    returns (kept: seq<Ledger>)
    requires window > 0 && Indexed(st, ix, start) && TwoBranches(ix, start, e.chain, world)
    requires Covers(st.history, start, start + |ix|, window)
        || (Agrees(ix, start, e.chain) && start + |ix| <= |e.chain|)
    ensures Repaired(CheckReorg(st, window, e, start + |ix|), ix, kept, start, e.chain,
        WindowStart(start + |ix|, window))
  {
    if Covers(st.history, start, start + |ix|, window) {
      kept := CheckRepairs(st, window, e, ix, start, world);
    } else {
      kept := ix;
      CheckOnExtension(st, window, e, ix, start, WindowStart(start + |ix|, window));
    }
  }

  /** One poll, either from a covered state or on a chain that extends the indexed branch: unless
      the checkpoint itself fails, the state has again indexed one hash-chained branch; and a
      completed poll of a chain that reaches the window leaves a branch that agrees with it. */
  lemma PollIndexesOneBranch(st: State, window: nat, e: Env, ix: seq<Ledger>, start: nat, world: set<Ledger>)
    returns (next: seq<Ledger>)
    requires window > 0 && Indexed(st, ix, start) && TwoBranches(ix, start, e.chain, world)
    requires Covers(st.history, start, start + |ix|, window)
        || (Agrees(ix, start, e.chain) && start + |ix| <= |e.chain|)
    ensures Poll(st, window, e).1 != CheckpointFailed ==>
      BranchAfter(Poll(st, window, e), ix, next, start, e.chain, world, WindowStart(start + |ix|, window))
  {
    next := ix;
    var st1 := st.(seen := st.seen - e.expired);
    PollUnfolds(st, window, e, start + |ix|);
    if e.readOk {
      var kept := CheckKeepsOneBranch(st1, window, e, ix, start, world);
      var checked := CheckReorg(st1, window, e, start + |ix|);
      next := PollFromRepaired(st1, window, e, checked, ix, kept, start, world, WindowStart(start + |ix|, window));
    }
  }

  // ---------------------------------------------------------------------------------------
  // The engine as it runs
  // ---------------------------------------------------------------------------------------

  lemma StoreOneMore(rows: set<Row>, l: Ledger, hash: string, events: seq<string>, i: nat)
    requires i < |events|
    ensures var stored := Store(rows, l, hash, events[..i]);
      Store(rows, l, hash, events[..i + 1])
        == if Taken(stored, hash, events[i]) then stored else stored + {Row(l.sequence, l.hash, hash, events[i])}
  {
    var stored := Store(rows, l, hash, events[..i]);
    assert events[..i + 1] == events[..i] + [events[i]];
    if Taken(rows, hash, events[i]) {
      var r :| r in rows && r.tx == hash && r.event == events[i];
      assert r in stored;
    } else if events[i] in events[..i] {
      assert Row(l.sequence, l.hash, hash, events[i]) in stored;
    }
  }

  lemma VisitOneMore(st: State, window: nat, ledgers: seq<Ledger>, i: nat, txns: map<nat, seq<Tx>>)
    requires i < |ledgers|
    ensures VisitAll(st, window, ledgers[..i + 1], txns)
         == Visit(VisitAll(st, window, ledgers[..i], txns), window, ledgers[i], txns)
  {
    assert ledgers[..i + 1][..i] == ledgers[..i];
  }

  /** The contract_events table, shared by the engine and the reconciler. */
  class EventTable {
    var rows: set<Row>

    constructor ()
      ensures rows == {}
    {
      rows := {};
    }

    method DeleteFrom(fork: nat)
      modifies this
      ensures rows == RowsBelow(old(rows), fork)
    {
      rows := set x | x in rows && x.ledger < fork;
    }

    /** Inserts a row for each event; a conflict with the unique index leaves the table alone. */
    method StoreEvents(l: Ledger, hash: string, events: seq<string>)
      modifies this
      ensures rows == Store(old(rows), l, hash, events)
    {
      var i := 0;
      while i < |events|
        invariant 0 <= i <= |events| && rows == Store(old(rows), l, hash, events[..i])
      {
        StoreOneMore(old(rows), l, hash, events, i);
        if !exists r :: r in rows && r.tx == hash && r.event == events[i] {
          rows := rows + {Row(l.sequence, l.hash, hash, events[i])};
        }
        i := i + 1;
      }
      assert events[..i] == events;
    }

    /** Processes the transactions of one ledger that a deduplicator has not seen. */
    method Process(l: Ledger, txs: seq<Tx>, known: set<string>) returns (seen: set<string>)
      modifies this
      ensures Sink(rows, seen) == Deliver(Sink(old(rows), known), l, txs)
    {
      seen := known;
      var i := 0;
      while i < |txs|
        invariant 0 <= i <= |txs|
        invariant Sink(rows, seen) == Deliver(Sink(old(rows), known), l, txs[..i])
      {
        var tx := txs[i];
        assert txs[..i + 1][..i] == txs[..i];
        i := i + 1;
        if tx.hash in seen {
          continue;
        }
        seen := seen + {tx.hash};
        StoreEvents(l, tx.hash, tx.events);
      }
      assert txs[..i] == txs;
    }
  }

  class IndexerEngine {
    const cursor: CursorTracker
    const history: LH.History
    const table: EventTable
    var seen: set<string>

    constructor (cursor: CursorTracker, table: EventTable, window: int)
      ensures Valid() && fresh(history) && this.cursor == cursor && this.table == table
      ensures Contents() == State(cursor.row, map[], table.rows, {})
    {
      this.cursor := cursor;
      this.table := table;
      this.history := new LH.History(window);
      this.seen := {};
    }

    ghost predicate Valid()
      reads this, history
    {
      history.Valid()
    }

    ghost function Contents(): (st: State)
      reads this, history, cursor, table
    {
      State(cursor.row, history.hashes, table.rows, seen)
    }

    /** Looks for a reorganization behind the cursor and rolls it back. */
    method CheckForReorg(e: Env, last: nat) returns (outcome: Outcome, next: nat)
      requires Valid()
      modifies this, history, cursor, table
      ensures Valid()
      ensures (Contents(), outcome, next) == CheckReorg(old(Contents()), history.window, e, last)
    {
      next := last;
      if last <= 0 {
        return Done, next;
      }
      var plan := DetectReorg(history.window, e.chain, e.windowOk, history, last);
      match plan {
        case FetchFailed => return CheckFailed, next;
        case TooDeep(_, _) => return ReorgTooDeep, next;
        case Consistent => return Done, next;
        case Plan(fork, lastLedger, _) =>
          if !e.deleteOk {
            return RollbackFailed, next;
          }
          table.DeleteFrom(fork);
          var ok := cursor.Rewind(lastLedger, e.rewindOk);
          if !ok {
            return RollbackFailed, next;
          }
          history.Truncate(fork);
          return Done, lastLedger;
      }
    }

    /** One poll cycle. */
    method PollOnce(e: Env) returns (outcome: Outcome)
      requires Valid()
      modifies this, history, cursor, table
      ensures Valid()
      ensures (Contents(), outcome) == Poll(old(Contents()), history.window, e)
    {
      seen := seen - e.expired;
      var current := cursor.GetCurrent(e.readOk);
      if current.None? {
        return ReadFailed;
      }
      var last;
      outcome, last := CheckForReorg(e, current.value);
      if outcome != Done {
        return;
      }
      if !e.fetchOk {
        return FetchError;
      }
      var ledgers := FetchLedgers(e.chain, last, e.batchSize);
      if |ledgers| == 0 {
        return Done;
      }
      outcome := VisitPage(e, ledgers);
    }

    /** Records the hash of a ledger and processes its transactions, if they can be fetched. */
    method VisitLedger(e: Env, l: Ledger)
      requires Valid()
      modifies this, history, table
      ensures Valid()
      ensures Contents() == Visit(old(Contents()), history.window, l, e.txns)
    {
      history.Record(l.sequence, l.hash);
      if l.sequence !in e.txns {
        return;
      }
      seen := table.Process(l, e.txns[l.sequence], seen);
    }

    /** Records, processes and finally checkpoints a non-empty page of ledgers. */
    method VisitPage(e: Env, ledgers: seq<Ledger>) returns (outcome: Outcome)
      requires Valid() && ledgers != [] && cursor.row.Some?
      modifies this, history, cursor, table
      ensures Valid()
      ensures var visited := VisitAll(old(Contents()), history.window, ledgers, e.txns);
        if e.updateOk then outcome == Done
            && Contents() == visited.(row := Advanced(visited.row, ledgers[|ledgers| - 1].sequence))
        else outcome == CheckpointFailed && Contents() == visited
    {
      var i := 0;
      while i < |ledgers|
        invariant 0 <= i <= |ledgers| && Valid()
        invariant Contents() == VisitAll(old(Contents()), history.window, ledgers[..i], e.txns)
        invariant cursor.row == old(cursor.row)
      {
        var l := ledgers[i];
        VisitOneMore(old(Contents()), history.window, ledgers, i, e.txns);
        i := i + 1;
        VisitLedger(e, l);
      }
      assert ledgers[..i] == ledgers;
      var r := cursor.Update(ledgers[|ledgers| - 1].sequence, e.updateOk);
      if r != Updated {
        return CheckpointFailed;
      }
      return Done;
    }
  }
}
