/**
Detection of a ledger reorganization: the hashes in a bounded window behind the cursor are
compared with the hashes recorded when those ledgers were indexed.
 */
module Reorg {
  import opened Ledgers
  import LH = LedgerHistory

  datatype Check =
    | Consistent
    | Plan(forkLedger: nat, lastLedger: nat, scanned: nat)
    | TooDeep(fork: nat, boundary: nat)
    | FetchFailed

  ghost predicate Mismatch(h: map<nat, string>, l: Ledger) {
    l.sequence in h && h[l.sequence] != l.hash
  }

  /** The least mismatching sequence of a page, or 0 when every recorded hash agrees. */
  ghost function LeastMismatch(h: map<nat, string>, page: seq<Ledger>): (fork: nat) {
    if page == [] then 0
    else
      var l := page[|page| - 1];
      var fork := LeastMismatch(h, page[..|page| - 1]);
      if Mismatch(h, l) && (fork == 0 || l.sequence < fork) then l.sequence else fork
  }

  function WindowStart(lastLedger: nat, window: nat): (from: nat) {
    if lastLedger < window + 1 then 1 else lastLedger - window + 1
  }

  /** The page the check re-reads: the ledgers from the window start up to lastLedger. */
  function WindowPage(chain: seq<Ledger>, window: nat, lastLedger: nat): (page: seq<Ledger>)
    requires lastLedger > 0
    ensures |page| <= lastLedger
  {
    var from := WindowStart(lastLedger, window);
    if lastLedger < from then [] else FetchLedgers(chain, from - 1, lastLedger - from + 1)
  }

  ghost function Detect(h: map<nat, string>, window: int, chain: seq<Ledger>, fetchOk: bool,
                        lastLedger: nat): (r: Check) {
    if window <= 0 || lastLedger == 0 then Consistent
    else if !fetchOk then FetchFailed
    else
      var page := WindowPage(chain, window, lastLedger);
      var fork := LeastMismatch(h, page);
      if page == [] || fork == 0 then Consistent
      else if fork <= page[0].sequence then TooDeep(fork, page[0].sequence)
      else Plan(fork, fork - 1, |page|)
  }

  /** Re-reads the window and compares it with the recorded hashes. */
  method DetectReorg(window: int, chain: seq<Ledger>, fetchOk: bool, history: LH.History, lastLedger: nat)
    returns (r: Check)
    requires history.Valid()
    ensures r == Detect(history.hashes, window, chain, fetchOk, lastLedger)
  {
    if window <= 0 || lastLedger <= 0 {
      return Consistent;
    }
    if !fetchOk {
      return FetchFailed;
    }
    var ledgers := WindowPage(chain, window, lastLedger);
    if |ledgers| == 0 {
      return Consistent;
    }
    var boundary := ledgers[0].sequence;
    var fork := 0;
    var i := 0;
    while i < |ledgers|
      invariant 0 <= i <= |ledgers|
      invariant fork == LeastMismatch(history.hashes, ledgers[..i])
    {
      var l := ledgers[i];
      assert ledgers[..i + 1][..i] == ledgers[..i];
      i := i + 1;
      var recorded, ok := history.Hash(l.sequence);
      if !ok {
        continue;
      }
      if recorded == l.hash {
        continue;
      }
      if fork == 0 || l.sequence < fork {
        fork := l.sequence;
      }
    }
    assert ledgers[..i] == ledgers;
    if fork == 0 {
      return Consistent;
    }
    if fork <= boundary {
      return TooDeep(fork, boundary);
    }
    return Plan(fork, fork - 1, |ledgers|);
  }

  /** On a numbered page the scan finds the first mismatching ledger. */
  lemma {:induction false} LeastMismatchIsFirst(h: map<nat, string>, page: seq<Ledger>, base: nat)
    requires Numbered(page, base)
    ensures var fork := LeastMismatch(h, page);
      if fork == 0 then forall i :: 0 <= i < |page| ==> !Mismatch(h, page[i])
      else && base < fork <= base + |page|
           && Mismatch(h, page[fork - base - 1])
           && forall i :: 0 <= i < fork - base - 1 ==> !Mismatch(h, page[i])
  {
    if page != [] {
      LeastMismatchIsFirst(h, page[..|page| - 1], base);
    }
  }

  // ---------------------------------------------------------------------------------------
  // The indexed branch behind the recorded hashes
  // ---------------------------------------------------------------------------------------

  /** Every recorded hash is the hash of a ledger of the indexed branch ix (ledgers start+1, ...). */
  ghost predicate RecordedFrom(h: map<nat, string>, ix: seq<Ledger>, start: nat) {
    forall s :: s in h ==> start < s <= start + |ix| && h[s] == ix[s - start - 1].hash
  }

  /** Every indexed ledger of the window behind the cursor is still recorded. This is something
      the caller can look up: the oldest record is not above the start of the window. */
  ghost predicate Covers(h: map<nat, string>, start: nat, cursor: nat, window: nat) {
    forall s :: start < s <= cursor && cursor < s + window ==> s in h
  }

  ghost predicate TwoBranches(ix: seq<Ledger>, start: nat, chain: seq<Ledger>, world: set<Ledger>) {
    && Linked(ix, start) && Linked(chain, 0)
    && CollisionFree(world) && Within(ix, world) && Within(chain, world)
  }

  /** What the check compares: the recorded mismatch at ledger s is a difference of the branches. */
  lemma MismatchIsDifference(h: map<nat, string>, ix: seq<Ledger>, start: nat, chain: seq<Ledger>, s: nat)
    requires RecordedFrom(h, ix, start) && Numbered(chain, 0)
    requires start < s <= start + |ix| && s <= |chain|
    ensures s in h ==> (Mismatch(h, chain[s - 1]) <==> !SameAt(ix, start, chain, s))
  {
  }

  /** page is the part of the chain from ledger from up to the cursor, as far as the chain goes. */
  ghost predicate IsWindow(page: seq<Ledger>, chain: seq<Ledger>, from: nat, cursor: nat) {
    && 1 <= from <= cursor
    && |page| == (if |chain| < from then 0 else if |chain| < cursor then |chain| - from + 1 else cursor - from + 1)
    && forall i :: 0 <= i < |page| ==> page[i] == chain[from - 1 + i]
  }

  lemma WindowPageIs(chain: seq<Ledger>, window: nat, cursor: nat)
    requires window > 0 && cursor > 0
    ensures IsWindow(WindowPage(chain, window, cursor), chain, WindowStart(cursor, window), cursor)
    ensures Numbered(chain, 0) ==> Numbered(WindowPage(chain, window, cursor), WindowStart(cursor, window) - 1)
  {
    var from := WindowStart(cursor, window);
    FetchedPage(chain, from - 1, cursor - from + 1);
  }

  /** fork is the first ledger from from on at which the branch and the chain differ; 0 for none. */
  ghost predicate FirstDifference(ix: seq<Ledger>, start: nat, chain: seq<Ledger>, from: nat, fork: nat) {
    && (fork != 0 ==> start < fork <= start + |ix| && from <= fork <= |chain| && !SameAt(ix, start, chain, fork))
    && (forall s :: start < s <= start + |ix| && from <= s <= |chain| && (fork == 0 || s < fork)
          ==> SameAt(ix, start, chain, s))
  }

  /** On a covered window the scan stops at the first ledger of the window at which the indexed
      branch and the chain differ, and at 0 when they do not. */
  lemma ScanFindsFirstDifference(h: map<nat, string>, page: seq<Ledger>, from: nat,
                                 ix: seq<Ledger>, start: nat, chain: seq<Ledger>)
    requires IsWindow(page, chain, from, start + |ix|)
    requires Numbered(chain, 0) && Numbered(page, from - 1)
    requires RecordedFrom(h, ix, start)
    requires forall s :: start < s <= start + |ix| && from <= s ==> s in h
    ensures FirstDifference(ix, start, chain, from, LeastMismatch(h, page))
  {
    var fork := LeastMismatch(h, page);
    LeastMismatchIsFirst(h, page, from - 1);
    if fork != 0 {
      assert page[fork - from] == chain[fork - 1];
      MismatchIsDifference(h, ix, start, chain, fork);
    }
    forall s | start < s <= start + |ix| && from <= s <= |chain| && (fork == 0 || s < fork)
      ensures SameAt(ix, start, chain, s)
    {
      assert page[s - from] == chain[s - 1];
      MismatchIsDifference(h, ix, start, chain, s);
    }
  }

  /** Because the branches are hash-chained, their first difference inside the window decides
      what they do below it. */
  lemma FirstDifferenceIsFork(ix: seq<Ledger>, start: nat, chain: seq<Ledger>, world: set<Ledger>, from: nat, fork: nat)
    requires TwoBranches(ix, start, chain, world) && FirstDifference(ix, start, chain, from, fork)
    requires 1 <= from <= start + |ix|
    ensures from < fork ==> IsFork(ix, start, chain, fork)
    ensures fork == 0 && from <= |chain| ==> Agrees(ix, start, chain)
  {
    var top := if |chain| < start + |ix| then |chain| else start + |ix|;
    if from < fork && start < fork - 1 {
      AgreementUpTo(ix, start, chain, world, fork - 1);
    } else if fork == 0 && from <= |chain| && start < top {
      AgreementUpTo(ix, start, chain, world, top);
    }
  }

  /** r is the right answer for an indexed branch ix, a canonical chain and a window that starts
      at ledger from: a plan names the least ledger at which the branches differ, also below the
      window; the check is silent exactly when they agree (a chain that ends below the window
      leaves nothing to compare); it gives up exactly when they already differ at from. */
  ghost predicate ExactVerdict(r: Check, ix: seq<Ledger>, start: nat, chain: seq<Ledger>, from: nat) {
    && (r.Plan? ==> r.lastLedger == r.forkLedger - 1 && from < r.forkLedger && IsFork(ix, start, chain, r.forkLedger))
    && (forall f :: IsFork(ix, start, chain, f) && from < f ==> r.Plan? && r.forkLedger == f)
    && (r.TooDeep? <==> start < from <= start + |ix| && from <= |chain| && !SameAt(ix, start, chain, from))
    && (Agrees(ix, start, chain) ==> r == Consistent)
    && (r == Consistent && from <= |chain| ==> Agrees(ix, start, chain))
    && r != FetchFailed
  }

  lemma VerdictOfFirstDifference(r: Check, ix: seq<Ledger>, start: nat, chain: seq<Ledger>, world: set<Ledger>,
                                 from: nat, fork: nat, scanned: nat)
    requires TwoBranches(ix, start, chain, world) && FirstDifference(ix, start, chain, from, fork)
    requires 1 <= from <= start + |ix|
    requires r == if |chain| < from || fork == 0 then Consistent
                  else if fork <= from then TooDeep(fork, from) else Plan(fork, fork - 1, scanned)
    ensures ExactVerdict(r, ix, start, chain, from)
  {
    FirstDifferenceIsFork(ix, start, chain, world, from, fork);
    forall f | IsFork(ix, start, chain, f) && from < f ensures fork == f {
    }
  }

  lemma DetectFromScan(h: map<nat, string>, window: nat, chain: seq<Ledger>, cursor: nat)
    returns (page: seq<Ledger>, fork: nat)
    requires window > 0 && cursor > 0 && Numbered(chain, 0)
    ensures IsWindow(page, chain, WindowStart(cursor, window), cursor)
    ensures Numbered(page, WindowStart(cursor, window) - 1)
    ensures fork == LeastMismatch(h, page)
    ensures Detect(h, window, chain, true, cursor)
         == if |chain| < WindowStart(cursor, window) || fork == 0 then Consistent
            else if fork <= WindowStart(cursor, window) then TooDeep(fork, WindowStart(cursor, window))
            else Plan(fork, fork - 1, |page|)
  {
    page := WindowPage(chain, window, cursor);
    fork := LeastMismatch(h, page);
    WindowPageIs(chain, window, cursor);
  }

  /** Fork detection is exact on a covered window. */
  lemma DetectionIsExact(h: map<nat, string>, window: nat, ix: seq<Ledger>, start: nat,
                         chain: seq<Ledger>, world: set<Ledger>)
    requires window > 0 && TwoBranches(ix, start, chain, world)
    requires RecordedFrom(h, ix, start) && Covers(h, start, start + |ix|, window)
    ensures ExactVerdict(Detect(h, window, chain, true, start + |ix|), ix, start, chain,
        WindowStart(start + |ix|, window))
  {
    var cursor := start + |ix|;
    if cursor > 0 {
      var from := WindowStart(cursor, window);
      var page, fork := DetectFromScan(h, window, chain, cursor);
      ScanFindsFirstDifference(h, page, from, ix, start, chain);
      VerdictOfFirstDifference(Detect(h, window, chain, true, cursor), ix, start, chain, world, from, fork, |page|);
    }
  }
}
