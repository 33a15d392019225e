/**
When the bounded history guards the rows: the safety theorem in the environment's terms.
 */
module Coverage {
  import opened Ledgers
  import opened Reorg
  import opened Cursors
  import opened Wrappers
  import opened Engine
  import opened Guards
  import opened Runs
  import opened Safety
  import LH = LedgerHistory

  // ---------------------------------------------------------------------------------------
  // What the bounded history keeps
  // ---------------------------------------------------------------------------------------

  lemma {:induction false} RangeSize(keys: set<nat>, lo: nat, hi: nat)
    requires forall k :: k in keys ==> lo <= k <= hi
    ensures |keys| <= Max(0, hi + 1 - lo)
    decreases hi + 1 - lo
  {
    if lo > hi {
      assert keys == {};
    } else {
      var rest := keys - {lo};
      RangeSize(rest, lo + 1, hi);
      assert keys <= rest + {lo};
    }
  }

  /** A full history with one ledger too many has its oldest one outside the newest window. */
  lemma OldestIsOld(h: map<nat, string>, window: nat, newest: nat)
    requires |h| > window && forall s :: s in h ==> s <= newest
    ensures h.Keys != {} && LH.Least(h.Keys) + window <= newest
  {
    assert |h.Keys| == |h| > 0;
    RangeSize(h.Keys, LH.Least(h.Keys), newest);
  }

  /** At most window hashes, none above the cursor, and every ledger up to the cursor that lies above the
      mark and at most a window behind the high-water mark. */
  ghost predicate Held(h: map<nat, string>, window: nat, mark: int, high: int, cursor: nat) {
    && |h| <= window && cursor <= high
    && (forall s :: s in h ==> s <= cursor)
    && (forall s: nat :: mark < s <= cursor && high < s + window ==> s in h)
  }

  lemma GrownHolds(h: map<nat, string>, window: nat, mark: int, high: int, cursor: nat, hash: string)
    requires Held(h, window, mark, high, cursor)
    ensures var grown := h[cursor + 1 := hash];
      && |grown| <= window + 1 && (forall s :: s in grown ==> s <= cursor + 1)
      && (forall s: nat :: mark < s <= cursor + 1 && Max(high, cursor + 1) < s + window ==> s in grown)
  {
    assert h[cursor + 1 := hash].Keys == h.Keys + {cursor + 1};
  }

  lemma DroppedSize(h: map<nat, string>, s: nat)
    requires s in h
    ensures |h - {s}| == |h| - 1
  {
    assert (h - {s}).Keys == h.Keys - {s};
  }

  /** Recording the next ledger keeps the newest window of hashes, gaps or not. */
  lemma RecordKeepsNewest(h: map<nat, string>, window: nat, mark: int, high: int, cursor: nat, hash: string)
    requires window > 0 && Held(h, window, mark, high, cursor) && hash != ""
    ensures Held(LH.Recorded(h, window, cursor + 1, hash), window, mark, Max(high, cursor + 1), cursor + 1)
  {
    GrownHolds(h, window, mark, high, cursor, hash);
    var grown := h[cursor + 1 := hash];
    if |grown| > window {
      OldestIsOld(grown, window, cursor + 1);
      DroppedSize(grown, LH.Least(grown.Keys));
    }
  }

  lemma LedgerIsHeld(st: State, window: nat, l: Ledger, txns: map<nat, seq<Tx>>, mark: int, high: int, cursor: nat)
    requires window > 0 && Held(st.history, window, mark, high, cursor) && l.sequence == cursor + 1 && l.hash != ""
    ensures var v := Visit(st, window, l, txns);
      v.row == st.row && Held(v.history, window, mark, Max(high, cursor + 1), cursor + 1)
  {
    RecordKeepsNewest(st.history, window, mark, high, cursor, l.hash);
  }

  lemma {:induction false} VisitAllHolds(st: State, window: nat, page: seq<Ledger>, txns: map<nat, seq<Tx>>,
                                         mark: int, high: int, cursor: nat)
    requires window > 0 && Held(st.history, window, mark, high, cursor)
    requires Numbered(page, cursor) && forall i :: 0 <= i < |page| ==> page[i].hash != ""
    ensures var v := VisitAll(st, window, page, txns);
      v.row == st.row && Held(v.history, window, mark, Max(high, cursor + |page|), cursor + |page|)
  {
    if page != [] {
      var init, l := page[..|page| - 1], page[|page| - 1];
      VisitAllHolds(st, window, init, txns, mark, high, cursor);
      var v, at := VisitAll(st, window, init, txns), cursor + |init|;
      LedgerIsHeld(v, window, l, txns, mark, Max(high, at), at);
      assert Max(Max(high, at), at + 1) == Max(high, at + 1);
    }
  }

  lemma RegrownHolds(h: map<nat, string>, window: nat, mark: int, top: nat, sequence: nat, hash: string)
    requires Held(h, window, mark, top, top) && sequence <= top
    ensures var grown := h[sequence := hash];
      && |grown| <= window + 1 && (forall s :: s in grown ==> s <= top)
      && (forall s: nat :: mark < s <= top < s + window ==> s in grown)
  {
    assert h[sequence := hash].Keys == h.Keys + {sequence};
  }

  /** One ledger too many is dropped, and it is not one of the newest window. */
  lemma EvictionHolds(grown: map<nat, string>, window: nat, mark: int, top: nat)
    requires |grown| == window + 1 && (forall s :: s in grown ==> s <= top)
    requires forall s: nat :: mark < s <= top < s + window ==> s in grown
    ensures grown.Keys != {} && Held(grown - {LH.Least(grown.Keys)}, window, mark, top, top)
  {
    OldestIsOld(grown, window, top);
    DroppedSize(grown, LH.Least(grown.Keys));
  }

  /** Recording a ledger again, at or below the newest one, keeps the newest window too. */
  lemma RecordAgainKeepsNewest(h: map<nat, string>, window: nat, mark: int, top: nat, sequence: nat, hash: string)
    requires window > 0 && Held(h, window, mark, top, top) && sequence <= top
    ensures Held(LH.Recorded(h, window, sequence, hash), window, mark, top, top)
  {
    RegrownHolds(h, window, mark, top, sequence, hash);
    if |h[sequence := hash]| > window {
      EvictionHolds(h[sequence := hash], window, mark, top);
    }
  }

  lemma LedgerIsHeldAgain(st: State, window: nat, l: Ledger, txns: map<nat, seq<Tx>>, mark: int, top: nat, now: nat)
    requires window > 0 && Held(st.history, window, mark, top, top) && l.sequence <= top + 1 && l.hash != ""
    requires now == Max(top, l.sequence)
    ensures Held(Visit(st, window, l, txns).history, window, mark, now, now)
  {
    if l.sequence <= top {
      RecordAgainKeepsNewest(st.history, window, mark, top, l.sequence, l.hash);
    } else {
      RecordKeepsNewest(st.history, window, mark, top, top, l.hash);
    }
  }

  lemma {:induction false} RevisitHolds(st: State, window: nat, page: seq<Ledger>, txns: map<nat, seq<Tx>>,
                                        mark: int, top: nat, cursor: nat)
    requires window > 0 && Held(st.history, window, mark, top, top) && cursor <= top
    requires Numbered(page, cursor) && forall i :: 0 <= i < |page| ==> page[i].hash != ""
    ensures var now := Max(top, cursor + |page|);
      Held(VisitAll(st, window, page, txns).history, window, mark, now, now)
  {
    if page != [] {
      var init, l := page[..|page| - 1], page[|page| - 1];
      RevisitHolds(st, window, init, txns, mark, top, cursor);
      LedgerIsHeldAgain(VisitAll(st, window, init, txns), window, l, txns, mark, Max(top, cursor + |init|),
                        Max(top, cursor + |page|));
    }
  }

  ghost predicate StateHolds(st: State, window: nat, mark: int, high: int) {
    st.row.Some? && Held(st.history, window, mark, high, st.row.value)
  }

  lemma TruncatedSize(h: map<nat, string>, fork: nat)
    ensures |LH.Truncated(h, fork)| <= |h|
  {
    var cut := LH.Truncated(h, fork);
    assert cut.Keys <= h.Keys;
    KeysSize(cut.Keys, h.Keys);
  }

  lemma {:induction false} KeysSize(a: set<nat>, b: set<nat>)
    requires a <= b
    ensures |a| <= |b|
    decreases |a|
  {
    if a != {} {
      var k :| k in a;
      KeysSize(a - {k}, b - {k});
    }
  }

  lemma CheckHolds(st: State, window: nat, e: Env, mark: int, high: int)
    requires window > 0 && StateHolds(st, window, mark, high) && Numbered(e.chain, 0)
    ensures var res := CheckReorg(st, window, e, st.row.value);
      StateHolds(res.0, window, mark, high) && (res.1 == Done ==> res.0.row == Some(res.2))
  {
    var res := CheckReorg(st, window, e, st.row.value);
    if res.1 == Done {
      CheckCompletes(st, window, e, st.row.value);
      if res.0 != st {
        TruncatedSize(st.history, res.2 + 1);
      }
    }
  }

  lemma ReplayHolds(st: State, window: nat, e: Env, mark: int, high: int, cursor: nat)
    requires window > 0 && StateHolds(st, window, mark, high) && st.row == Some(cursor) && Linked(e.chain, 0)
    requires Replay(st, window, e, cursor).1 != CheckpointFailed
    ensures var next := Replay(st, window, e, cursor).0;
      next.row.Some? && StateHolds(next, window, mark, Max(high, next.row.value))
  {
    var page := FetchLedgers(e.chain, cursor, e.batchSize);
    FetchedPage(e.chain, cursor, e.batchSize);
    VisitAllHolds(st, window, page, e.txns, mark, high, cursor);
    if page != [] {
      assert page[|page| - 1].sequence == cursor + |page|;
    }
  }

  /** Every poll that keeps its checkpoint keeps the newest window of hashes, whatever else fails and
      whichever chain it sees. */
  lemma PollHolds(st: State, window: nat, e: Env, mark: int, high: int)
    requires window > 0 && StateHolds(st, window, mark, high) && Linked(e.chain, 0)
    requires Poll(st, window, e).1 != CheckpointFailed
    ensures var next := Poll(st, window, e).0;
      next.row.Some? && StateHolds(next, window, mark, Max(high, next.row.value))
  {
    var st1 := st.(seen := st.seen - e.expired);
    PollUnfolds(st, window, e, st.row.value);
    if e.readOk {
      CheckHolds(st1, window, e, mark, high);
      var res := CheckReorg(st1, window, e, st.row.value);
      if res.1 == Done {
        ReplayHolds(res.0, window, e, mark, high, res.2);
      }
    }
  }

  // ---------------------------------------------------------------------------------------
  // Runs
  // ---------------------------------------------------------------------------------------

  /** The highest cursor of the run so far. */
  ghost function HighWater(x: Indexer, window: nat, acts: seq<Act>): (high: int)
    decreases |acts|
  {
    var row := Run(x, window, acts).engine.row;
    var now := if row.Some? then row.value as int else 0;
    if acts == [] then now else Max(HighWater(x, window, acts[..|acts| - 1]), now)
  }

  /** The highest ledger that the reconciler has visited so far, or start. */
  ghost function LastCaughtUp(x: Indexer, window: nat, start: nat, acts: seq<Act>): (mark: int)
    decreases |acts|
  {
    if acts == [] then start
    else
      var init, a := acts[..|acts| - 1], acts[|acts| - 1];
      var now, mark := Run(x, window, init), LastCaughtUp(x, window, start, init);
      if a.CatchesUp? && HasNext(now, a.look) then Max(mark, now.position.value + 1) else mark
  }

  /** The cursor stands at its high-water mark, and the engine itself has visited the last window of
      ledgers: the reconciler has stored nothing in them. */
  ghost predicate CaughtUpAlone(st: State, window: nat, start: nat, mark: int, high: int) {
    st.row.Some? && st.row.value == high && (mark <= start || mark + window <= high)
  }

  /** Then the state is guarded. */
  lemma CaughtUpIsGuarded(st: State, window: nat, start: nat, mark: int, high: int)
    requires window > 0 && StateHolds(st, window, mark, high) && Bounded(st, start, high)
    requires CaughtUpAlone(st, window, start, mark, high)
    ensures Guarded(st, window, start)
  {
  }

  /** The environment replaces the branch only while the engine has caught up on its own; the reconciler,
      wherever it stands, stores rows only on a chain that only grew and whose hashes are the ones
      recorded beyond it; no checkpoint is lost. */
  ghost predicate CalmAct(x: Indexer, window: nat, start: nat, known: seq<Ledger>, mark: int, high: int, a: Act) {
    match a
    case PollsOnce(e) =>
      && (CaughtUpAlone(x.engine, window, start, mark, high) || Extends(x.engine, known, e.chain))
      && Poll(x.engine, window, e).1 != CheckpointFailed
    case BeginsCycle => true
    case CatchesUp(look) => SafeVisit(x, known, look)
  }

  ghost predicate CalmRun(x: Indexer, window: nat, start: nat, acts: seq<Act>)
    decreases |acts|
  {
    acts == [] ||
    var init, a := acts[..|acts| - 1], acts[|acts| - 1];
    && CalmRun(x, window, start, init)
    && CalmAct(Run(x, window, init), window, start, Known(x, window, init), LastCaughtUp(x, window, start, init),
               HighWater(x, window, init), a)
  }

  lemma VisitHolds(x: Indexer, window: nat, look: Look, mark: int, high: int)
    requires StateHolds(x.engine, window, mark, high) && HasNext(x, look) && Numbered(look.chain, 0)
    ensures var next := CatchUp(x, look).engine;
      next.row.Some? && StateHolds(next, window, Max(mark, x.position.value + 1), Max(high, next.row.value))
  {
    CatchUpKeeps(x, look);
  }

  lemma ActHolds(x: Indexer, window: nat, a: Act, start: nat, known: seq<Ledger>, mark: int, high: int,
                 world: set<Ledger>)
    requires window > 0 && StateHolds(x.engine, window, mark, high) && Seen(a, world)
    requires CalmAct(x, window, start, known, mark, high, a)
    ensures var next := Next(x, window, a).engine;
      && next.row.Some?
      && StateHolds(next, window,
                    if a.CatchesUp? && HasNext(x, a.look) then Max(mark, x.position.value + 1) else mark,
                    Max(high, next.row.value))
  {
    match a
    case PollsOnce(e) => PollHolds(x.engine, window, e, mark, high);
    case BeginsCycle =>
    case CatchesUp(look) => if HasNext(x, look) { VisitHolds(x, window, look, mark, high); }
  }

  lemma {:induction false} CalmRunHolds(x: Indexer, window: nat, acts: seq<Act>, start: nat, world: set<Ledger>)
    requires window > 0 && Starts(x, start) && HashChained(acts, world) && CalmRun(x, window, start, acts)
    ensures StateHolds(Run(x, window, acts).engine, window, LastCaughtUp(x, window, start, acts),
        HighWater(x, window, acts))
    decreases |acts|
  {
    if acts != [] {
      var init, a := acts[..|acts| - 1], acts[|acts| - 1];
      CalmRunHolds(x, window, init, start, world);
      ActHolds(Run(x, window, init), window, a, start, Known(x, window, init), LastCaughtUp(x, window, start, init),
               HighWater(x, window, init), world);
    }
  }

  lemma {:induction false} CalmRunIsSafe(x: Indexer, window: nat, acts: seq<Act>, start: nat, world: set<Ledger>)
    requires window > 0 && Starts(x, start) && HashChained(acts, world) && CalmRun(x, window, start, acts)
    ensures SafeRun(x, window, start, acts)
    decreases |acts|
  {
    if acts != [] {
      var init, a := acts[..|acts| - 1], acts[|acts| - 1];
      CalmRunIsSafe(x, window, init, start, world);
      var follows := RunKeepsInv(x, window, init, start, world);
      CalmRunHolds(x, window, init, start, world);
      var st, mark, high := Run(x, window, init).engine,
          LastCaughtUp(x, window, start, init), HighWater(x, window, init);
      if CaughtUpAlone(st, window, start, mark, high) {
        CaughtUpIsGuarded(st, window, start, mark, high);
      }
    }
  }

  /** The safety theorem in the environment's terms, with no assumption on the history: if branches are
      swapped only while the engine has caught up and has visited the last window of ledgers itself, no
      row of an abandoned branch is ever kept. */
  lemma CalmRunsKeepNoAbandonedEvents(x: Indexer, window: nat, acts: seq<Act>, start: nat, world: set<Ledger>)
    requires window > 0 && Starts(x, start) && HashChained(acts, world) && CalmRun(x, window, start, acts)
    ensures NoAbandonedRow(Run(x, window, acts).engine.rows, start, Known(x, window, acts))
  {
    CalmRunIsSafe(x, window, acts, start, world);
    NoAbandonedEvents(x, window, acts, start, world);
  }
}
