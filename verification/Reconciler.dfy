/**
The reconciler's batched catch-up, and the safety of a cursor row that several processes advance
at the same time.
 */
module Reconciler {
  import opened Ledgers
  import opened Cursors
  import opened Wrappers
  import opened Engine

  const DEFAULT_BATCH_SIZE: nat := 50
  const DEFAULT_MAX_LEDGERS_PER_CYCLE: nat := 500

  function Positive(n: int, default: nat): (r: nat)
    requires default > 0
    ensures r > 0
  {
    if n <= 0 then default else n
  }

  /** What a reconciler writes to: the cursor row and the event table it shares with the engine, and
      its own deduplicator. */
  datatype Desk = Desk(row: Option<nat>, rows: set<Row>, seen: set<string>)

  /** One ledger of a cycle: its transactions are delivered, then the row is advanced. No hash is
      recorded. */
  ghost function CaughtUp(d: Desk, l: Ledger, txs: seq<Tx>, updateOk: bool): (r: Desk) {
    var sink := Deliver(Sink(d.rows, d.seen), l, txs);
    Desk(if updateOk then Advanced(d.row, l.sequence) else d.row, sink.rows, sink.seen)
  }

  ghost function CaughtUpAll(d: Desk, ls: seq<Ledger>, calls: Calls): (r: Desk) {
    if ls == [] then d
    else
      var l := ls[|ls| - 1];
      CaughtUp(CaughtUpAll(d, ls[..|ls| - 1], calls), l, TxsOf(calls.txns, l), calls.checkpoint(l.sequence))
  }

  /** How many ledgers one unbatched cycle visits: all there are, up to the cycle's limit. */
  function CycleLength(chain: seq<Ledger>, cursor: nat, maxPerCycle: nat): (n: nat)
    ensures n == 0 || cursor + n <= |chain|
  {
    var available := if |chain| <= cursor then 0 else |chain| - cursor;
    if available < maxPerCycle then available else maxPerCycle
  }

  /** What the calls of one cycle yield: whether the cursor read, the probe for new ledgers, the fetch
      of the k-th batch (a cancelled context counts as a failed one) and the checkpoint of a ledger
      succeed, and the transactions of the ledgers whose fetch succeeds. */
  datatype Calls = Calls(read: bool, probe: bool, batch: nat -> bool, checkpoint: nat -> bool, txns: map<nat, seq<Tx>>)

  ghost predicate AllSucceed(calls: Calls) {
    calls.read && calls.probe && (forall k :: calls.batch(k)) && (forall s :: calls.checkpoint(s))
  }

  ghost predicate AllKept(ls: seq<Ledger>, calls: Calls) {
    forall i :: 0 <= i < |ls| ==> calls.checkpoint(ls[i].sequence)
  }

  /** The ledgers that an unbatched cycle visits, in order. */
  function Missed(chain: seq<Ledger>, start: nat, max: nat): (ls: seq<Ledger>)
    ensures |ls| == CycleLength(chain, start, max)
    ensures forall i :: 0 <= i < |ls| ==> ls[i] == chain[start + i]
  {
    var n := CycleLength(chain, start, max);
    if n == 0 then [] else chain[start..start + n]
  }

  lemma CaughtUpSnoc(d: Desk, ls: seq<Ledger>, l: Ledger, calls: Calls)
    ensures CaughtUpAll(d, ls + [l], calls)
         == CaughtUp(CaughtUpAll(d, ls, calls), l, TxsOf(calls.txns, l), calls.checkpoint(l.sequence))
  {
    assert (ls + [l])[..|ls|] == ls;
  }

  lemma {:induction false} CaughtUpSplits(d: Desk, a: seq<Ledger>, b: seq<Ledger>, calls: Calls)
    ensures CaughtUpAll(d, a + b, calls) == CaughtUpAll(CaughtUpAll(d, a, calls), b, calls)
    decreases |b|
  {
    if b == [] {
      assert a + b == a;
    } else {
      var init := b[..|b| - 1];
      CaughtUpSplits(d, a, init, calls);
      assert (a + b)[..|a + b| - 1] == a + init;
    }
  }

  /** The row after ledgers that follow it: the last one whose checkpoint was kept. */
  lemma {:induction false} RowAfter(d: Desk, start: nat, ls: seq<Ledger>, calls: Calls)
    requires d.row == Some(start) && Numbered(ls, start) && (ls != [] ==> AllKept(ls[..|ls| - 1], calls))
    ensures var row := CaughtUpAll(d, ls, calls).row;
      row == Some(if AllKept(ls, calls) then start + |ls| else start + |ls| - 1)
  {
    if ls != [] {
      var init, l := ls[..|ls| - 1], ls[|ls| - 1];
      assert init != [] ==> AllKept(init[..|init| - 1], calls);
      RowAfter(d, start, init, calls);
      assert AllKept(ls, calls) <==> calls.checkpoint(l.sequence);
    }
  }

  /** visited are the first of the missed ledgers, d is what visiting them made of was, and at most
      the last of them is not in the row. */
  ghost predicate Progress(was: Desk, d: Desk, start: nat, missed: seq<Ledger>, visited: seq<Ledger>, calls: Calls) {
    && visited <= missed
    && d == CaughtUpAll(was, visited, calls)
    && d.row == Some(if AllKept(visited, calls) then start + |visited| else start + |visited| - 1)
  }

  lemma KeptJoins(a: seq<Ledger>, b: seq<Ledger>, calls: Calls)
    ensures AllKept(a + b, calls) <==> AllKept(a, calls) && AllKept(b, calls)
  {
    assert forall i :: 0 <= i < |b| ==> (a + b)[|a| + i] == b[i];
    assert forall i :: 0 <= i < |a| ==> (a + b)[i] == a[i];
  }

  lemma StretchesJoin(missed: seq<Ledger>, visited: seq<Ledger>, page: seq<Ledger>, more: seq<Ledger>, start: nat)
    requires visited <= missed && page <= missed[|visited|..] && more <= page && Numbered(missed, start)
    ensures visited + more <= missed && Numbered(more, start + |visited|)
  {
    assert forall i :: 0 <= i < |more| ==> more[i] == missed[|visited| + i];
  }

  lemma MissedIsNumbered(chain: seq<Ledger>, start: nat, max: nat)
    requires Numbered(chain, 0)
    ensures Numbered(Missed(chain, start, max), start)
  {
  }

  lemma BatchJoins(was: Desk, d: Desk, next: Desk, start: nat, missed: seq<Ledger>, visited: seq<Ledger>,
                   page: seq<Ledger>, more: seq<Ledger>, calls: Calls)
    requires Progress(was, d, start, missed, visited, calls) && AllKept(visited, calls) && Numbered(missed, start)
    requires page <= missed[|visited|..] && more <= page && next == CaughtUpAll(d, more, calls)
    requires more != [] ==> AllKept(more[..|more| - 1], calls)
    ensures Progress(was, next, start, missed, visited + more, calls)
    ensures AllKept(visited + more, calls) <==> AllKept(more, calls)
  {
    StretchesJoin(missed, visited, page, more, start);
    RowAfter(d, start + |visited|, more, calls);
    CaughtUpSplits(was, visited, more, calls);
    KeptJoins(visited, more, calls);
  }

  /** A batch is the next stretch of the missed ledgers. */
  lemma BatchIsNext(chain: seq<Ledger>, start: nat, max: nat, total: nat, limit: nat)
    requires total <= |Missed(chain, start, max)| && total + limit <= max
    ensures var missed := Missed(chain, start, max);
      var page := FetchLedgers(chain, start + total, limit);
      page <= missed[total..] && (|page| < limit ==> total + |page| == |missed|)
  {
    FetchedPage(chain, start + total, limit);
    var missed := Missed(chain, start, max);
    var page := FetchLedgers(chain, start + total, limit);
    assert forall i :: 0 <= i < |page| ==> missed[total..][i] == page[i];
  }

  class LedgerReconciler {
    const cursor: CursorTracker
    const table: EventTable
    var seen: set<string>

    constructor (cursor: CursorTracker, table: EventTable)
      ensures this.cursor == cursor && this.table == table
      ensures Contents() == Desk(cursor.row, table.rows, {})
    {
      this.cursor := cursor;
      this.table := table;
      this.seen := {};
    }

    ghost function Contents(): (d: Desk)
      reads this, cursor, table
    {
      Desk(cursor.row, table.rows, seen)
    }

    /** Visits the ledgers of one page, checkpointing each, wherever the row stands by now. */
    method VisitBatch(page: seq<Ledger>, calls: Calls) returns (visited: seq<Ledger>, ok: bool)
      modifies this, cursor, table
      ensures visited <= page && (ok ==> visited == page)
      ensures Contents() == CaughtUpAll(old(Contents()), visited, calls)
      ensures visited != [] ==> old(cursor.row).None? || AllKept(visited[..|visited| - 1], calls)
      ensures ok ==> AllKept(page, calls)
      ensures !ok ==> visited != [] && (old(cursor.row).None? || !AllKept(visited, calls))
      ensures cursor.row.Some? <==> old(cursor.row).Some?
    {
      visited := [];
      var i := 0;
      while i < |page|
        invariant 0 <= i <= |page| && visited == page[..i] && AllKept(visited, calls)
        invariant Contents() == CaughtUpAll(old(Contents()), visited, calls)
        invariant cursor.row.Some? <==> old(cursor.row).Some?
      {
        var l := page[i];
        CaughtUpSnoc(old(Contents()), visited, l, calls);
        assert page[..i + 1] == visited + [l];
        assert (visited + [l])[..i] == visited;
        if l.sequence in calls.txns {
          seen := table.Process(l, calls.txns[l.sequence], seen);
        }
        visited := visited + [l];
        var r := cursor.Update(l.sequence, calls.checkpoint(l.sequence));
        if r != Updated {
          assert !calls.checkpoint(visited[i].sequence) || old(cursor.row).None?;
          return visited, false;
        }
        i := i + 1;
      }
      return visited, true;
    }

    /** The next batch of the missed ledgers. */
    method NextBatch(ghost was: Desk, start: nat, ghost missed: seq<Ledger>, before: seq<Ledger>, page: seq<Ledger>,
                     calls: Calls)
      returns (visited: seq<Ledger>, ok: bool)
      requires Progress(was, Contents(), start, missed, before, calls) && AllKept(before, calls)
      requires Numbered(missed, start) && page <= missed[|before|..]
      modifies this, cursor, table
      ensures Progress(was, Contents(), start, missed, visited, calls)
      ensures ok ==> |visited| == |before| + |page| && AllKept(visited, calls)
      ensures AllSucceed(calls) ==> ok
    {
      ghost var d := Contents();
      var more;
      more, ok := VisitBatch(page, calls);
      BatchJoins(was, d, Contents(), start, missed, before, page, more, calls);
      visited := before + more;
    }

    /** One reconciliation cycle, for any batch size: it visits, in order, the ledgers that an
        unbatched cycle would, and a cycle that fails has visited a prefix of them. */
    method Reconcile(chain: seq<Ledger>, batchSize: int, maxPerCycle: int, calls: Calls)
      returns (visited: seq<Ledger>, ok: bool)
      requires Numbered(chain, 0)
      modifies this, cursor, table
      ensures old(cursor.row).None? ==> !ok && visited == [] && Contents() == old(Contents())
      ensures old(cursor.row).Some? ==>
        var start := old(cursor.row).value;
        var missed := Missed(chain, start, Positive(maxPerCycle, DEFAULT_MAX_LEDGERS_PER_CYCLE));
        Progress(old(Contents()), Contents(), start, missed, visited, calls) && (ok ==> visited == missed)
      ensures ok ==> AllKept(visited, calls)
      ensures old(cursor.row).Some? && AllSucceed(calls) ==> ok
      ensures old(cursor.row).Some? ==>
        var start, limit := old(cursor.row).value, if maxPerCycle > 0 then maxPerCycle else 500;
        var available := if |chain| <= start then 0 else |chain| - start;
        && |visited| <= available && |visited| <= limit && (ok ==> |visited| == available || |visited| == limit)
        && forall i :: 0 <= i < |visited| ==> visited[i] == chain[start + i]
    {
      visited := [];
      var current := cursor.GetCurrent(calls.read);
      if current.None? {
        return visited, false;
      }
      var start := current.value;
      if !calls.probe {
        return visited, false;
      }
      var probe := FetchLedgers(chain, start, 1);
      if |probe| == 0 {
        return visited, true;
      }
      var batch := Positive(batchSize, DEFAULT_BATCH_SIZE);
      var max := Positive(maxPerCycle, DEFAULT_MAX_LEDGERS_PER_CYCLE);
      visited, ok := VisitMissed(chain, start, batch, max, calls);
    }

    /** The batch loop of a cycle that has read the cursor. */
    method VisitMissed(chain: seq<Ledger>, start: nat, batch: nat, max: nat, calls: Calls)
      returns (visited: seq<Ledger>, ok: bool)
      requires Numbered(chain, 0) && batch > 0 && cursor.row == Some(start)
      modifies this, cursor, table
      ensures Progress(old(Contents()), Contents(), start, Missed(chain, start, max), visited, calls)
      ensures ok ==> visited == Missed(chain, start, max) && AllKept(visited, calls)
      ensures AllSucceed(calls) ==> ok
    {
      ghost var missed := Missed(chain, start, max);
      MissedIsNumbered(chain, start, max);
      visited := [];
      var total := 0;
      var position := start;
      var k := 0;
      while total < max
        invariant 0 <= total == |visited| <= |missed| && position == start + total
        invariant AllKept(visited, calls) && Progress(old(Contents()), Contents(), start, missed, visited, calls)
        decreases max - total
      {
        var limit := if max - total < batch then max - total else batch;
        if !calls.batch(k) {
          return visited, false;
        }
        k := k + 1;
        var page := FetchLedgers(chain, position, limit);
        BatchIsNext(chain, start, max, total, limit);
        if |page| == 0 {
          break;
        }
        total := total + |page|;
        var batchOk;
        visited, batchOk := NextBatch(old(Contents()), start, missed, visited, page, calls);
        if !batchOk {
          return visited, false;
        }
        position := position + |page|;
        if |page| < limit {
          break;
        }
      }
      return visited, true;
    }
  }

  // ---------------------------------------------------------------------------------------
  // Engines and reconcilers on one cursor row
  // ---------------------------------------------------------------------------------------

  /** Where a process stands. Ready holds a position and is about to fetch the page after it; in
      Page the ledgers up to done are visited and the page goes on to upto; Owes has visited a
      ledger and has not written it to the row yet. */
  datatype Local =
    | Idle
    | Ready(done: nat)
    | Page(done: nat, upto: nat)
    | Owes(done: nat, upto: nat)

  /** An engine checkpoints once, at the end of a page; a reconciler after every ledger, and it
      goes on from its own position. */
  datatype Kind = EngineProcess | ReconcilerProcess

  datatype Shared = Shared(cursor: nat, visited: set<nat>, locals: map<nat, (Kind, Local)>)

  datatype Action =
    | Read(who: nat)
    | Rewind(who: nat, to: nat)
    | Fetch(who: nat, count: nat)
    | VisitNext(who: nat)
    | Checkpoint(who: nat)
    | Abort(who: nat)

  ghost function Move(st: Shared, who: nat, to: Local): (r: Shared)
    requires who in st.locals
  {
    st.(locals := st.locals[who := (st.locals[who].0, to)])
  }

  /** An engine that has read the cursor may find a fork behind it. */
  ghost predicate MayRewind(st: Shared, who: nat, to: nat) {
    who in st.locals && st.locals[who].0 == EngineProcess && st.locals[who].1.Ready? && to <= st.locals[who].1.done
  }

  /** The rollback moves the row back, undoes the visits above it and goes on from there. */
  ghost function Rewound(st: Shared, who: nat, to: nat): (r: Shared)
    requires who in st.locals
  {
    Move(st.(cursor := to, visited := set s | s in st.visited && s <= to), who, Ready(to))
  }

  /** One atomic step of one process; a step that its process is not ready for changes nothing. */
  ghost function Step(st: Shared, a: Action): (r: Shared) {
    if a.who !in st.locals then st
    else
      var (kind, local) := st.locals[a.who];
      match a
      case Read(w) => if local.Idle? then Move(st, w, Ready(st.cursor)) else st
      case Rewind(w, to) => if MayRewind(st, w, to) then Rewound(st, w, to) else st
      case Fetch(w, count) =>
        if local.Ready? then Move(st, w, if count == 0 then Idle else Page(local.done, local.done + count)) else st
      case VisitNext(w) =>
        if local.Page? && local.done < local.upto then
          var next := if kind == ReconcilerProcess || local.done + 1 == local.upto then Owes(local.done + 1, local.upto)
                      else Page(local.done + 1, local.upto);
          Move(st.(visited := st.visited + {local.done + 1}), w, next)
        else st
      case Checkpoint(w) =>
        if local.Owes? then
          var next := if local.done < local.upto then Page(local.done, local.upto)
                      else if kind == ReconcilerProcess then Ready(local.done) else Idle;
          Move(st.(cursor := Max(st.cursor, local.done)), w, next)
        else st
      case Abort(w) => Move(st, w, Idle)
  }

  ghost function Run(st: Shared, actions: seq<Action>): (r: Shared)
    decreases |actions|
  {
    if actions == [] then st else Step(Run(st, actions[..|actions| - 1]), actions[|actions| - 1])
  }

  ghost predicate VisitedUpTo(visited: set<nat>, start: nat, upto: nat) {
    forall s :: start < s <= upto ==> s in visited
  }

  /** Everything up to the process's position is visited, and its page is not finished. */
  ghost predicate Sound(local: Local, visited: set<nat>, start: nat) {
    !local.Idle? ==>
      start <= local.done && VisitedUpTo(visited, start, local.done) && (local.Page? ==> local.done < local.upto)
  }

  ghost predicate Inv(st: Shared, start: nat) {
    && start <= st.cursor && VisitedUpTo(st.visited, start, st.cursor)
    && forall w :: w in st.locals ==> Sound(st.locals[w].1, st.visited, start)
  }

  /** No other process stands above the ledger that is rewound to. */
  ghost predicate NobodyAbove(st: Shared, who: nat, to: nat) {
    forall w :: w in st.locals && w != who && !st.locals[w].1.Idle? ==> st.locals[w].1.done <= to
  }

  /** The rewind, if it is one, stays above the start and finds nobody above it. */
  ghost predicate ClearAction(st: Shared, a: Action, start: nat) {
    a.Rewind? && MayRewind(st, a.who, a.to) ==> start <= a.to && NobodyAbove(st, a.who, a.to)
  }

  ghost predicate ClearRun(st: Shared, actions: seq<Action>, start: nat)
    decreases |actions|
  {
    actions == [] ||
    var init, a := actions[..|actions| - 1], actions[|actions| - 1];
    ClearRun(st, init, start) && ClearAction(Run(st, init), a, start)
  }

  lemma StepKeepsInv(st: Shared, a: Action, start: nat)
    requires Inv(st, start) && ClearAction(st, a, start)
    ensures Inv(Step(st, a), start)
    ensures !a.Rewind? ==> st.cursor <= Step(st, a).cursor && st.visited <= Step(st, a).visited
  {
    var next := Step(st, a);
    forall w | w in next.locals ensures Sound(next.locals[w].1, next.visited, start) {
      assert w in st.locals && Sound(st.locals[w].1, st.visited, start);
    }
  }

  lemma {:induction false} RunKeepsInv(st: Shared, actions: seq<Action>, start: nat)
    requires Inv(st, start) && ClearRun(st, actions, start)
    ensures Inv(Run(st, actions), start)
    decreases |actions|
  {
    if actions != [] {
      RunKeepsInv(st, actions[..|actions| - 1], start);
      StepKeepsInv(Run(st, actions[..|actions| - 1]), actions[|actions| - 1], start);
    }
  }

  /** Two-writer safety, for any number of engines and reconcilers, any page sizes and any
      interleaving of their steps, crashes and clear rewinds included: every ledger from the start up
      to the cursor has been visited by one of them, and only a rewind moves the cursor back. */
  lemma {:induction false} CursorNeverSkipsALedger(st: Shared, actions: seq<Action>, start: nat, m: nat)
    requires st.cursor == start && forall w :: w in st.locals ==> st.locals[w].1.Idle?
    requires ClearRun(st, actions, start) && m <= |actions|
    ensures VisitedUpTo(Run(st, actions).visited, start, Run(st, actions).cursor)
    ensures (forall i :: m <= i < |actions| ==> !actions[i].Rewind?) ==>
      Run(st, actions[..m]).cursor <= Run(st, actions).cursor
    decreases |actions|
  {
    RunKeepsInv(st, actions, start);
    if m == |actions| {
      assert actions[..m] == actions;
    } else {
      var init := actions[..|actions| - 1];
      assert init[..m] == actions[..m];
      CursorNeverSkipsALedger(st, init, start, m);
      RunKeepsInv(st, init, start);
      StepKeepsInv(Run(st, init), actions[|actions| - 1], start);
    }
  }

  // ---------------------------------------------------------------------------------------
  // A process that is left alone gets on
  // ---------------------------------------------------------------------------------------

  lemma RunOneMore(st: Shared, actions: seq<Action>, a: Action)
    ensures Run(st, actions + [a]) == Step(Run(st, actions), a)
  {
    assert (actions + [a])[..|actions|] == actions;
  }

  ghost predicate AllVisited(visited: set<nat>, above: nat, upto: nat) {
    forall s :: above < s <= upto ==> s in visited
  }

  /** The rest of a page: every ledger of it is visited, and the row stands at its end or beyond. */
  lemma FinishPage(st: Shared, actions: seq<Action>, w: nat, above: nat, upto: nat) returns (longer: seq<Action>)
    requires w in Run(st, actions).locals
    requires var l := Run(st, actions).locals[w].1;
      l.Page? && l.done < l.upto == upto && AllVisited(Run(st, actions).visited, above, l.done)
    ensures w in Run(st, longer).locals && AllVisited(Run(st, longer).visited, above, upto)
    ensures Run(st, longer).cursor == Max(Run(st, actions).cursor, upto)
    decreases upto - Run(st, actions).locals[w].1.done
  {
    var now := Run(st, actions);
    RunOneMore(st, actions, VisitNext(w));
    longer := actions + [VisitNext(w)];
    if Run(st, longer).locals[w].1.Owes? {
      RunOneMore(st, longer, Checkpoint(w));
      longer := longer + [Checkpoint(w)];
    }
    if now.locals[w].1.done + 1 < upto {
      longer := FinishPage(st, longer, w, above, upto);
    }
  }

  /** An idle process that reads the row, fetches n ledgers and is left alone visits them all and moves the
      row past them, engine or reconciler; one that gives up is idle again. */
  lemma ProcessGetsOn(st: Shared, w: nat, n: nat) returns (actions: seq<Action>)
    requires w in st.locals && st.locals[w].1.Idle? && n > 0
    ensures AllVisited(Run(st, actions).visited, st.cursor, st.cursor + n) && Run(st, actions).cursor == st.cursor + n
    ensures Step(Run(st, actions), Abort(w)).locals.Keys == st.locals.Keys
    ensures Step(Run(st, actions), Abort(w)).locals[w].1.Idle?
  {
    RunOneMore(st, [], Read(w));
    actions := [] + [Read(w)];
    RunOneMore(st, actions, Fetch(w, n));
    actions := actions + [Fetch(w, n)];
    actions := FinishPage(st, actions, w, st.cursor, st.cursor + n);
    RunKeepsProcesses(st, actions);
  }

  lemma {:induction false} RunKeepsProcesses(st: Shared, actions: seq<Action>)
    ensures Run(st, actions).locals.Keys == st.locals.Keys
    decreases |actions|
  {
    if actions != [] {
      RunKeepsProcesses(st, actions[..|actions| - 1]);
    }
  }

  // ---------------------------------------------------------------------------------------
  // Rewinds while another process is under way
  // ---------------------------------------------------------------------------------------

  /** No ledger from the start up to the cursor is skipped, however the run goes on, as long as later
      rewinds are clear. */
  ghost predicate Honoured(st: Shared, start: nat) {
    forall actions :: ClearRun(st, actions, start) ==>
      VisitedUpTo(Run(st, actions).visited, start, Run(st, actions).cursor)
  }

  lemma RunSnoc(st: Shared, actions: seq<Action>, a: Action, start: nat)
    requires ClearRun(st, actions, start) && !a.Rewind?
    ensures Run(st, actions + [a]) == Step(Run(st, actions), a) && ClearRun(st, actions + [a], start)
  {
    assert (actions + [a])[..|actions|] == actions;
  }

  /** Where a process is on its way to drag the row past the ledger hole, which nobody has visited. */
  ghost predicate Skips(st: Shared, w: nat, hole: nat) {
    w in st.locals && !st.locals[w].1.Idle? && hole <= st.locals[w].1.done && hole !in st.visited
  }

  /** A process that still has ledgers of its page before it visits one more of them. */
  lemma VisitTowards(st: Shared, actions: seq<Action>, w: nat, hole: nat, start: nat) returns (longer: seq<Action>)
    requires ClearRun(st, actions, start) && Skips(Run(st, actions), w, hole)
    requires var l := Run(st, actions).locals[w].1; l.Page? && l.done < l.upto
    ensures ClearRun(st, longer, start) && Skips(Run(st, longer), w, hole)
    ensures Run(st, longer).locals[w].1.Owes?
    decreases Run(st, actions).locals[w].1.upto - Run(st, actions).locals[w].1.done
  {
    RunSnoc(st, actions, VisitNext(w), start);
    longer := actions + [VisitNext(w)];
    if Run(st, longer).locals[w].1.Page? {
      longer := VisitTowards(st, longer, w, hole, start);
    }
  }

  /** Such a process reaches a checkpoint, and the row passes the hole. */
  lemma DragPast(st: Shared, w: nat, hole: nat, start: nat) returns (actions: seq<Action>)
    requires Skips(st, w, hole) && start < hole
    requires st.locals[w].1.Page? ==> st.locals[w].1.done < st.locals[w].1.upto
    ensures ClearRun(st, actions, start)
    ensures !VisitedUpTo(Run(st, actions).visited, start, Run(st, actions).cursor)
  {
    actions := [];
    if st.locals[w].1.Ready? {
      RunSnoc(st, actions, Fetch(w, 1), start);
      actions := actions + [Fetch(w, 1)];
    }
    if !st.locals[w].1.Owes? {
      actions := VisitTowards(st, actions, w, hole, start);
    }
    RunSnoc(st, actions, Checkpoint(w), start);
    actions := actions + [Checkpoint(w)];
    assert hole <= Run(st, actions).cursor && hole !in Run(st, actions).visited;
  }

  /** The exact condition for a rewind, from every state that the processes reach: the rewound ledgers
      are all visited again before the row passes them if and only if no other process is under way
      above the ledger that is rewound to. */
  lemma RewindIsHonouredIff(st: Shared, who: nat, to: nat, start: nat)
    requires Inv(st, start) && MayRewind(st, who, to) && start <= to
    ensures NobodyAbove(st, who, to) <==> Honoured(Step(st, Rewind(who, to)), start)
  {
    var next := Step(st, Rewind(who, to));
    if NobodyAbove(st, who, to) {
      StepKeepsInv(st, Rewind(who, to), start);
      forall actions | ClearRun(next, actions, start)
        ensures VisitedUpTo(Run(next, actions).visited, start, Run(next, actions).cursor)
      {
        RunKeepsInv(next, actions, start);
      }
    } else {
      var w :| w in st.locals && w != who && !st.locals[w].1.Idle? && st.locals[w].1.done > to;
      assert forall v :: v in st.locals ==> Sound(st.locals[v].1, st.visited, start);
      assert Skips(next, w, to + 1);
      var actions := DragPast(next, w, to + 1, start);
      assert !Honoured(next, start);
    }
  }
}
