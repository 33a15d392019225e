/**
Whole runs with the poll split at its cursor read, its reorg check and its replay: visits of the
reconciler fall between them, too.
 */
module Splits {
  import opened Ledgers
  import opened Reorg
  import opened Cursors
  import opened Wrappers
  import opened Engine
  import opened Guards
  import opened Runs
  import opened Safety
  import LH = LedgerHistory

  /** How far the poll has got, and the cursor it goes on from. */
  datatype Stage = Resting | HasRead(cursor: nat) | HasChecked(cursor: nat)

  datatype Split = Split(x: Indexer, stage: Stage)

  datatype Move =
    | Reads(e: Env)
    | Checks(e: Env)
    | Replays(e: Env)
    | Begins
    | Catches(look: Look)

  /** One move; a move that the poll is not ready for changes nothing. */
  ghost function Made(s: Split, window: nat, m: Move): (r: Split) {
    match m
    case Reads(e) =>
      if !s.stage.Resting? then s
      else
        var st := s.x.engine.(seen := s.x.engine.seen - e.expired);
        Split(s.x.(engine := st), if e.readOk && st.row.Some? then HasRead(st.row.value) else Resting)
    case Checks(e) =>
      if !s.stage.HasRead? then s
      else
        var res := CheckReorg(s.x.engine, window, e, s.stage.cursor);
        Split(s.x.(engine := res.0), if res.1 == Done then HasChecked(res.2) else Resting)
    case Replays(e) =>
      if !s.stage.HasChecked? then s
      else Split(s.x.(engine := Replay(s.x.engine, window, e, s.stage.cursor).0), Resting)
    case Begins => s.(x := Next(s.x, window, BeginsCycle))
    case Catches(look) => s.(x := Next(s.x, window, CatchesUp(look)))
  }

  ghost function MadeAll(s: Split, window: nat, moves: seq<Move>): (r: Split)
    decreases |moves|
  {
    if moves == [] then s else Made(MadeAll(s, window, moves[..|moves| - 1]), window, moves[|moves| - 1])
  }

  /** Made one after the other, the three moves are the poll. */
  lemma PollIsThreeMoves(x: Indexer, window: nat, e: Env)
    ensures var checked := Made(Made(Split(x, Resting), window, Reads(e)), window, Checks(e));
      Made(checked, window, Replays(e)) == Split(x.(engine := Poll(x.engine, window, e).0), Resting)
  {
    if x.engine.row.Some? {
      PollUnfolds(x.engine, window, e, x.engine.row.value);
    }
  }

  lemma MadeOneMore(s: Split, window: nat, moves: seq<Move>, m: Move)
    ensures MadeAll(s, window, moves + [m]) == Made(MadeAll(s, window, moves), window, m)
  {
    assert (moves + [m])[..|moves|] == moves;
  }

  /** One act, as moves. */
  lemma ActIsMoves(s: Split, window: nat, moves: seq<Move>, x: Indexer, a: Act) returns (longer: seq<Move>)
    requires MadeAll(s, window, moves) == Split(x, Resting)
    ensures MadeAll(s, window, longer) == Split(Next(x, window, a), Resting)
  {
    match a
    case PollsOnce(e) =>
      MadeOneMore(s, window, moves, Reads(e));
      MadeOneMore(s, window, moves + [Reads(e)], Checks(e));
      MadeOneMore(s, window, moves + [Reads(e)] + [Checks(e)], Replays(e));
      PollIsThreeMoves(x, window, e);
      longer := moves + [Reads(e)] + [Checks(e)] + [Replays(e)];
    case BeginsCycle =>
      MadeOneMore(s, window, moves, Begins);
      longer := moves + [Begins];
    case CatchesUp(look) =>
      MadeOneMore(s, window, moves, Catches(look));
      longer := moves + [Catches(look)];
  }

  /** Every run with whole polls is a run of moves; the split runs are the same ones and more. */
  lemma {:induction false} RunsAreMoves(x: Indexer, window: nat, acts: seq<Act>) returns (moves: seq<Move>)
    ensures MadeAll(Split(x, Resting), window, moves) == Split(Run(x, window, acts), Resting)
    decreases |acts|
  {
    if acts == [] {
      moves := [];
    } else {
      var init := acts[..|acts| - 1];
      moves := RunsAreMoves(x, window, init);
      moves := ActIsMoves(Split(x, Resting), window, moves, Run(x, window, init), acts[|acts| - 1]);
    }
  }

  // ---------------------------------------------------------------------------------------
  // The invariant
  // ---------------------------------------------------------------------------------------

  /** The invariant of the runs of whole polls, and: while a poll is under way, nothing is recorded beyond
      the cursor it goes on from, wherever the row has got to. */
  ghost predicate SplitInv(s: Split, start: nat, known: seq<Ledger>, full: seq<Ledger>, world: set<Ledger>) {
    && Inv(s.x.engine, start, known, full, world) && Linked(known, 0) && Within(known, world)
    && (!s.stage.Resting? ==> KeysUpTo(s.x.engine.history, s.stage.cursor))
  }

  /** The check is safe from a state that is guarded at the cursor that was read, or on a chain that only
      grew. */
  ghost predicate SafeCheck(st: State, window: nat, start: nat, known: seq<Ledger>, cursor: nat, e: Env) {
    Guarded(st.(row := Some(cursor)), window, start) || Extends(st, known, e.chain)
  }

  /** What a check at a cursor that may be behind the row leaves. */
  ghost predicate CheckedAt(st: State, window: nat, e: Env, start: nat, cursor: nat, res: (State, Outcome, nat)) {
    && Shrinks(st, res.0) && res.0.row.Some? && Bounded(res.0, start, res.0.row.value)
    && (res.1 == Done ==> KeysUpTo(res.0.history, res.2))
    && (res.1 == Done && WindowStart(cursor, window) <= |e.chain| ==> AgreesWith(res.0, start, e.chain))
  }

  lemma CheckAtShrinks(st: State, window: nat, e: Env, start: nat, cursor: nat)
    requires window > 0 && st.row.Some? && Bounded(st, start, st.row.value) && Numbered(e.chain, 0)
    requires KeysUpTo(st.history, cursor)
    ensures var res := CheckReorg(st, window, e, cursor);
      && Shrinks(st, res.0) && res.0.row.Some? && Bounded(res.0, start, res.0.row.value)
      && (res.1 == Done ==> KeysUpTo(res.0.history, res.2))
  {
    if CheckReorg(st, window, e, cursor).1 == Done {
      CheckCompletes(st, window, e, cursor);
    }
  }

  /** The check does not look at the row. */
  lemma CheckIgnoresRow(st: State, window: nat, e: Env, cursor: nat)
    requires st.row.Some?
    ensures var a, b := CheckReorg(st, window, e, cursor), CheckReorg(st.(row := Some(cursor)), window, e, cursor);
      a.0.rows == b.0.rows && a.0.history == b.0.history && a.1 == b.1 && a.2 == b.2
  {
  }

  lemma AgreesIgnoresRow(st: State, other: State, start: nat, chain: seq<Ledger>)
    requires st.rows == other.rows && st.history == other.history && AgreesWith(other, start, chain)
    ensures AgreesWith(st, start, chain)
  {
    assert Shrinks(other, st);
    ShrinkingKeeps(other, st, start, chain);
  }

  lemma GuardedCheckAt(st: State, window: nat, e: Env, start: nat, cursor: nat, known: seq<Ledger>, full: seq<Ledger>,
                       world: set<Ledger>)
    requires window > 0 && Inv(st, start, known, full, world) && TwoBranches(full, 0, e.chain, world)
    requires KeysUpTo(st.history, cursor) && Guarded(st.(row := Some(cursor)), window, start)
    requires CheckReorg(st, window, e, cursor).1 == Done && WindowStart(cursor, window) <= |e.chain|
    ensures AgreesWith(CheckReorg(st, window, e, cursor).0, start, e.chain)
  {
    var at := st.(row := Some(cursor));
    assert Shrinks(st, at);
    ShrinkingKeeps(st, at, start, full);
    ShrinkingKeeps(st, at, start, known);
    CheckIgnoresRow(st, window, e, cursor);
    CheckIsSafe(at, window, e, start, known, full, world);
    AgreesIgnoresRow(CheckReorg(st, window, e, cursor).0, CheckReorg(at, window, e, cursor).0, start, e.chain);
  }

  lemma CheckAtIsSafe(st: State, window: nat, e: Env, start: nat, cursor: nat, known: seq<Ledger>, full: seq<Ledger>,
                      world: set<Ledger>)
    requires window > 0 && Inv(st, start, known, full, world) && TwoBranches(full, 0, e.chain, world)
    requires KeysUpTo(st.history, cursor) && SafeCheck(st, window, start, known, cursor, e)
    ensures CheckedAt(st, window, e, start, cursor, CheckReorg(st, window, e, cursor))
  {
    CheckAtShrinks(st, window, e, start, cursor);
    var res := CheckReorg(st, window, e, cursor);
    if res.1 == Done && WindowStart(cursor, window) <= |e.chain| {
      if Extends(st, known, e.chain) {
        ExtensionAgrees(st, start, known, e.chain);
        ShrinkingKeeps(st, res.0, start, e.chain);
      } else {
        GuardedCheckAt(st, window, e, start, cursor, known, full, world);
      }
    }
  }

  ghost predicate CheckSettles(s: Split, window: nat, e: Env) {
    && s.stage.HasRead? && CheckReorg(s.x.engine, window, e, s.stage.cursor).1 == Done
    && WindowStart(s.stage.cursor, window) <= |e.chain|
  }

  lemma CheckKeepsInv(s: Split, window: nat, e: Env, start: nat, known: seq<Ledger>, full: seq<Ledger>,
                      world: set<Ledger>)
    requires window > 0 && SplitInv(s, start, known, full, world) && s.stage.HasRead?
    requires CollisionFree(world) && Linked(e.chain, 0) && Within(e.chain, world)
    requires SafeCheck(s.x.engine, window, start, known, s.stage.cursor, e)
    ensures SplitInv(Made(s, window, Checks(e)), start,
                     if CheckSettles(s, window, e) then e.chain else known, full, world)
  {
    var st := s.x.engine;
    CheckAtIsSafe(st, window, e, start, s.stage.cursor, known, full, world);
    var res := CheckReorg(st, window, e, s.stage.cursor);
    ShrinkingKeeps(st, res.0, start, full);
    ShrinkingKeeps(st, res.0, start, known);
  }

  // ---------------------------------------------------------------------------------------
  // The replay
  // ---------------------------------------------------------------------------------------

  ghost function Longer(a: seq<Ledger>, b: seq<Ledger>): (r: seq<Ledger>) {
    if |a| <= |b| then b else a
  }

  ghost predicate VisitsSome(cursor: nat, e: Env) {
    e.fetchOk && cursor < |e.chain|
  }

  /** The replay sees the chain that the rows are known to agree with, grown or not yet grown as far, and
      keeps its checkpoint. */
  ghost predicate SafeReplay(st: State, window: nat, start: nat, known: seq<Ledger>, cursor: nat, e: Env) {
    VisitsSome(cursor, e) ==>
      && (known <= e.chain || e.chain <= known) && cursor <= |known|
      && (forall r :: r in st.rows && start < r.ledger ==> r.ledger <= |known|)
      && Replay(st, window, e, cursor).1 == Done
  }

  lemma KnownIsFollowed(st: State, start: nat, known: seq<Ledger>, cursor: nat, chain: seq<Ledger>)
    requires AgreesWith(st, start, known) && KeysUpTo(st.history, cursor) && cursor <= |known| && known <= chain
    requires forall r :: r in st.rows && start < r.ledger ==> r.ledger <= |known|
    ensures Follows(st, start, chain)
  {
  }

  lemma PageOfLonger(chain: seq<Ledger>, longer: seq<Ledger>, cursor: nat, limit: nat) returns (page: seq<Ledger>)
    requires Numbered(chain, 0) && chain <= longer && cursor < |chain|
    ensures page == FetchLedgers(chain, cursor, limit) && Numbered(page, cursor) && cursor + |page| <= |longer|
    ensures forall i :: 0 <= i < |page| ==> page[i] == longer[cursor + i]
  {
    page := FetchLedgers(chain, cursor, limit);
    FetchedPage(chain, cursor, limit);
  }

  lemma ReplayFollowsLonger(st: State, window: nat, e: Env, start: nat, cursor: nat, longer: seq<Ledger>)
    requires st.row.Some? && Bounded(st, start, st.row.value) && KeysUpTo(st.history, cursor)
    requires Follows(st, start, longer) && Numbered(e.chain, 0) && e.chain <= longer && cursor < |e.chain|
    requires Replay(st, window, e, cursor).1 == Done
    ensures var next := Replay(st, window, e, cursor).0;
      next.row.Some? && Bounded(next, start, next.row.value) && Follows(next, start, longer)
  {
    var page := PageOfLonger(e.chain, longer, cursor, e.batchSize);
    VisitAllFollows(st, window, page, e.txns, start, longer, cursor);
    if page != [] {
      assert page[|page| - 1].sequence == cursor + |page|;
    }
  }

  lemma ReplayKeepsInv(s: Split, window: nat, e: Env, start: nat, known: seq<Ledger>, full: seq<Ledger>,
                       world: set<Ledger>)
    returns (follows: seq<Ledger>)
    requires SplitInv(s, start, known, full, world) && s.stage.HasChecked?
    requires Linked(e.chain, 0) && Within(e.chain, world)
    requires SafeReplay(s.x.engine, window, start, known, s.stage.cursor, e)
    ensures SplitInv(Made(s, window, Replays(e)), start,
                     if VisitsSome(s.stage.cursor, e) then Longer(known, e.chain) else known, follows, world)
  {
    var st, cursor := s.x.engine, s.stage.cursor;
    if VisitsSome(cursor, e) {
      follows := Longer(known, e.chain);
      KnownIsFollowed(st, start, known, cursor, follows);
      ReplayFollowsLonger(st, window, e, start, cursor, follows);
      FollowsAgrees(Replay(st, window, e, cursor).0, start, follows, follows);
    } else {
      follows := full;
      ReplayOfNothing(st, window, e, cursor);
    }
  }

  // ---------------------------------------------------------------------------------------
  // Whole runs
  // ---------------------------------------------------------------------------------------

  ghost predicate SafeMove(s: Split, window: nat, start: nat, known: seq<Ledger>, m: Move) {
    match m
    case Reads(e) => true
    case Checks(e) => s.stage.HasRead? ==> SafeCheck(s.x.engine, window, start, known, s.stage.cursor, e)
    case Replays(e) => s.stage.HasChecked? ==> SafeReplay(s.x.engine, window, start, known, s.stage.cursor, e)
    case Begins => true
    case Catches(look) => SafeVisit(s.x, known, look)
  }

  /** The chain that the rows are known to agree with after the move. */
  ghost function KnownAfter(s: Split, window: nat, known: seq<Ledger>, m: Move): (chain: seq<Ledger>) {
    match m
    case Reads(e) => known
    case Checks(e) => if CheckSettles(s, window, e) then e.chain else known
    case Replays(e) => if s.stage.HasChecked? && VisitsSome(s.stage.cursor, e) then Longer(known, e.chain) else known
    case Begins => known
    case Catches(look) => if CatchUp(s.x, look).engine.rows == s.x.engine.rows then known else look.chain
  }

  ghost function KnownNow(s: Split, window: nat, moves: seq<Move>): (chain: seq<Ledger>)
    decreases |moves|
  {
    if moves == [] then []
    else
      var init := moves[..|moves| - 1];
      KnownAfter(MadeAll(s, window, init), window, KnownNow(s, window, init), moves[|moves| - 1])
  }

  ghost predicate SafeMoves(s: Split, window: nat, start: nat, moves: seq<Move>)
    decreases |moves|
  {
    moves == [] ||
    var init, m := moves[..|moves| - 1], moves[|moves| - 1];
    SafeMoves(s, window, start, init) && SafeMove(MadeAll(s, window, init), window, start, KnownNow(s, window, init), m)
  }

  ghost predicate SeesWorld(m: Move, world: set<Ledger>) {
    match m
    case Reads(e) => true
    case Checks(e) => Linked(e.chain, 0) && Within(e.chain, world)
    case Replays(e) => Linked(e.chain, 0) && Within(e.chain, world)
    case Begins => true
    case Catches(look) => Linked(look.chain, 0) && Within(look.chain, world)
  }

  lemma ReadKeepsInv(s: Split, window: nat, e: Env, start: nat, known: seq<Ledger>, full: seq<Ledger>,
                     world: set<Ledger>)
    requires SplitInv(s, start, known, full, world)
    ensures SplitInv(Made(s, window, Reads(e)), start, known, full, world)
  {
    var st := s.x.engine;
    ShrinkingKeeps(st, st.(seen := st.seen - e.expired), start, full);
    ShrinkingKeeps(st, st.(seen := st.seen - e.expired), start, known);
  }

  lemma CatchKeepsInv(s: Split, look: Look, start: nat, known: seq<Ledger>, full: seq<Ledger>, world: set<Ledger>)
    returns (follows: seq<Ledger>)
    requires SplitInv(s, start, known, full, world) && SafeVisit(s.x, known, look)
    requires Linked(look.chain, 0) && Within(look.chain, world)
    ensures SplitInv(s.(x := CatchUp(s.x, look)), start,
                     if CatchUp(s.x, look).engine.rows == s.x.engine.rows then known else look.chain, follows, world)
  {
    follows := CatchUpKeepsInv(s.x, look, start, known, full, world);
    CatchUpKeeps(s.x, look);
  }

  lemma MoveKeepsInv(s: Split, window: nat, m: Move, start: nat, known: seq<Ledger>, full: seq<Ledger>,
                     world: set<Ledger>)
    returns (follows: seq<Ledger>)
    requires window > 0 && SplitInv(s, start, known, full, world) && CollisionFree(world) && SeesWorld(m, world)
    requires SafeMove(s, window, start, known, m)
    ensures SplitInv(Made(s, window, m), start, KnownAfter(s, window, known, m), follows, world)
  {
    follows := full;
    match m
    case Reads(e) => ReadKeepsInv(s, window, e, start, known, full, world);
    case Checks(e) =>
      if s.stage.HasRead? {
        CheckKeepsInv(s, window, e, start, known, full, world);
      }
    case Replays(e) =>
      if s.stage.HasChecked? {
        follows := ReplayKeepsInv(s, window, e, start, known, full, world);
      }
    case Begins =>
    case Catches(look) => follows := CatchKeepsInv(s, look, start, known, full, world);
  }

  lemma {:induction false} MovesKeepInv(s: Split, window: nat, moves: seq<Move>, start: nat, world: set<Ledger>)
    returns (follows: seq<Ledger>)
    requires window > 0 && Starts(s.x, start) && s.stage.Resting? && CollisionFree(world)
    requires (forall i :: 0 <= i < |moves| ==> SeesWorld(moves[i], world)) && SafeMoves(s, window, start, moves)
    ensures SplitInv(MadeAll(s, window, moves), start, KnownNow(s, window, moves), follows, world)
    decreases |moves|
  {
    if moves == [] {
      follows := [];
    } else {
      var init, m := moves[..|moves| - 1], moves[|moves| - 1];
      var full := MovesKeepInv(s, window, init, start, world);
      follows := MoveKeepsInv(MadeAll(s, window, init), window, m, start, KnownNow(s, window, init), full, world);
    }
  }

  /** Safety over runs in which the reconciler may visit ledgers between the cursor read, the check and the
      replay of a poll: no row above start stems from a ledger that the known chain has abandoned. */
  lemma SplitRunsKeepNoAbandonedEvents(s: Split, window: nat, moves: seq<Move>, start: nat, world: set<Ledger>)
    requires window > 0 && Starts(s.x, start) && s.stage.Resting? && CollisionFree(world)
    requires (forall i :: 0 <= i < |moves| ==> SeesWorld(moves[i], world)) && SafeMoves(s, window, start, moves)
    ensures NoAbandonedRow(MadeAll(s, window, moves).x.engine.rows, start, KnownNow(s, window, moves))
  {
    var follows := MovesKeepInv(s, window, moves, start, world);
  }
}
