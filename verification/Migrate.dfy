/**
The migration planner: target resolution, selection of files in both directions, and the effect of
whole runs on the schema_migrations table.
 */
module Migrate {
  import opened MigrationNames

  datatype Result<T> = Ok(value: T) | Err(error: TargetError)
  datatype TargetError = AmbiguousVersion | UnknownVersion

  // ---------------------------------------------------------------------------------------
  // Target resolution
  // ---------------------------------------------------------------------------------------

  ghost predicate ExactAt(to: string, files: seq<string>, i: int) {
    0 <= i < |files| && VersionFromPath(files[i]) == to
  }

  ghost predicate PrefixAt(to: string, files: seq<string>, i: int) {
    0 <= i < |files| && PrefixOf(VersionFromPath(files[i])) == to
  }

  /** What a target means: the first file with exactly that version; failing that, for a bare
      number, the only file with that prefix. Anything else is an error. */
  ghost predicate Resolves(to: string, files: seq<string>, r: Result<nat>) {
    if exists i :: ExactAt(to, files, i) then
      r.Ok? && ExactAt(to, files, r.value) && forall i :: ExactAt(to, files, i) ==> r.value <= i
    else if IsBare(to) && exists i :: PrefixAt(to, files, i) then
      if r.Ok? then PrefixAt(to, files, r.value) && forall i :: PrefixAt(to, files, i) ==> i == r.value
      else r == Err(AmbiguousVersion) && exists i, j :: PrefixAt(to, files, i) && PrefixAt(to, files, j) && i != j
    else r == Err(UnknownVersion)
  }

  method ResolveTargetIndex(to: string, files: seq<string>) returns (r: Result<nat>)
    ensures Resolves(to, files, r)
  {
    var i := 0;
    while i < |files|
      invariant 0 <= i <= |files|
      invariant forall j :: 0 <= j < i ==> !ExactAt(to, files, j)
    {
      if VersionFromPath(files[i]) == to {
        assert ExactAt(to, files, i);
        return Ok(i);
      }
      i := i + 1;
    }
    assert forall j :: !ExactAt(to, files, j);
    if IsBare(to) {
      var first, found := 0, false;
      i := 0;
      while i < |files|
        invariant 0 <= i <= |files|
        invariant found ==> first < i && PrefixAt(to, files, first)
        invariant forall j :: 0 <= j < i && PrefixAt(to, files, j) ==> found && j == first
      {
        if PrefixOf(VersionFromPath(files[i])) == to {
          assert PrefixAt(to, files, i);
          if found {
            return Err(AmbiguousVersion);
          }
          first, found := i, true;
        }
        i := i + 1;
      }
      if found {
        return Ok(first);
      }
    }
    return Err(UnknownVersion);
  }

  // ---------------------------------------------------------------------------------------
  // Selection
  // ---------------------------------------------------------------------------------------

  /** The elements of s that are in keep, in order. */
  ghost function Filter(s: seq<string>, keep: set<string>): (r: seq<string>) {
    if s == [] then []
    else if s[|s| - 1] in keep then Filter(s[..|s| - 1], keep) + [s[|s| - 1]]
    else Filter(s[..|s| - 1], keep)
  }

  ghost function Reversed(s: seq<string>): (r: seq<string>) {
    seq(|s|, i requires 0 <= i < |s| => s[|s| - 1 - i])
  }

  /** The first count elements; a count that is not positive is no limit. */
  function Limit(s: seq<string>, count: int): (r: seq<string>) {
    if count > 0 && |s| > count then s[..count] else s
  }

  lemma {:induction false} FilterNone(s: seq<string>, keep: set<string>)
    requires forall i :: 0 <= i < |s| ==> s[i] !in keep
    ensures Filter(s, keep) == []
  {
    if s != [] {
      FilterNone(s[..|s| - 1], keep);
    }
  }

  lemma {:induction false} FilterElements(s: seq<string>, keep: set<string>)
    ensures forall f :: f in Filter(s, keep) <==> f in s && f in keep
  {
    if s != [] {
      FilterElements(s[..|s| - 1], keep);
      assert s == s[..|s| - 1] + [s[|s| - 1]];
    }
  }

  /** The i-th file is pending and not above the target; a negative target is none. */
  predicate IsPending(files: seq<string>, applied: set<string>, target: int, i: nat)
    requires i < |files|
  {
    VersionFromPath(files[i]) !in applied && (target < 0 || i <= target)
  }

  /** All pending files up to the target, in order. */
  ghost function PendingFiles(files: seq<string>, applied: set<string>, target: int): (r: seq<string>) {
    if files == [] then []
    else if IsPending(files, applied, target, |files| - 1) then
      PendingFiles(files[..|files| - 1], applied, target) + [files[|files| - 1]]
    else PendingFiles(files[..|files| - 1], applied, target)
  }

  /** The forward plan: all pending files up to the target, in order, at most count of them. */
  ghost function UpPlan(files: seq<string>, applied: set<string>, target: int, count: int): (plan: seq<string>) {
    Limit(PendingFiles(files, applied, target), count)
  }

  ghost predicate Distinct(files: seq<string>) {
    forall i, j :: 0 <= i < j < |files| ==> files[i] != files[j]
  }

  lemma PendingStep(files: seq<string>, applied: set<string>, target: int, i: nat)
    requires i < |files|
    ensures PendingFiles(files[..i + 1], applied, target)
         == if IsPending(files, applied, target, i) then PendingFiles(files[..i], applied, target) + [files[i]]
            else PendingFiles(files[..i], applied, target)
  {
    assert files[..i + 1][..i] == files[..i];
  }

  /** What is collected from the first files is how the whole collection starts, and once the target
      is passed there is nothing to add. */
  lemma {:induction false} PendingPrefix(files: seq<string>, applied: set<string>, target: int, i: nat)
    requires i <= |files|
    ensures PendingFiles(files[..i], applied, target) <= PendingFiles(files, applied, target)
    ensures 0 <= target < i ==> PendingFiles(files[..i], applied, target) == PendingFiles(files, applied, target)
    decreases |files| - i
  {
    if i == |files| {
      assert files[..i] == files;
    } else {
      PendingStep(files, applied, target, i);
      PendingPrefix(files, applied, target, i + 1);
    }
  }

  /** The pending files up to target (when there is one), as the loop with its two early exits
      collects them. */
  method CollectUp(files: seq<string>, applied: set<string>, target: int, count: int) returns (selected: seq<string>)
    ensures selected == UpPlan(files, applied, target, count)
  {
    selected := [];
    var i := 0;
    while i < |files|
      invariant 0 <= i <= |files|
      invariant selected == PendingFiles(files[..i], applied, target)
      invariant count > 0 ==> |selected| < count
    {
      PendingStep(files, applied, target, i);
      var version := VersionFromPath(files[i]);
      if version in applied {
        i := i + 1;
        continue;
      }
      if target >= 0 && i > target {
        PendingPrefix(files, applied, target, i);
        return;
      }
      selected := selected + [files[i]];
      if count != 0 && |selected| == count {
        PendingPrefix(files, applied, target, i + 1);
        return;
      }
      i := i + 1;
    }
    assert files[..i] == files;
  }

  /** r is the plan for the option values: the plan up to the resolved target, or the target's
      error. */
  ghost predicate PlannedUp(files: seq<string>, applied: set<string>, to: string, count: int, r: Result<seq<string>>) {
    if to == "" then r == Ok(UpPlan(files, applied, -1, count))
    else exists t ::
      Resolves(to, files, t) && r == if t.Ok? then Ok(UpPlan(files, applied, t.value, count)) else Err(t.error)
  }

  method SelectUpFiles(files: seq<string>, applied: set<string>, to: string,
                       count: int) returns (r: Result<seq<string>>)
    ensures PlannedUp(files, applied, to, count, r)
  {
    var target: int := -1;
    if to != "" {
      var t := ResolveTargetIndex(to, files);
      if t.Err? {
        return Err(t.error);
      }
      target := t.value;
      assert Resolves(to, files, t);
    }
    var selected := CollectUp(files, applied, target, count);
    return Ok(selected);
  }

  /** p are the elements of s at the positions idx. */
  ghost predicate Picks(p: seq<string>, s: seq<string>, idx: seq<nat>) {
    |p| == |idx| && forall k :: 0 <= k < |idx| ==> idx[k] < |s| && p[k] == s[idx[k]]
  }

  ghost predicate Rising(idx: seq<nat>) {
    forall k, l :: 0 <= k < l < |idx| ==> idx[k] < idx[l]
  }

  ghost predicate Falling(idx: seq<nat>) {
    forall k, l :: 0 <= k < l < |idx| ==> idx[k] > idx[l]
  }

  /** One more element of s: it is picked or not. */
  lemma PickNext(p: seq<string>, q: seq<string>, s: seq<string>, init: seq<nat>, n: nat, yes: bool)
    returns (idx: seq<nat>)
    requires n < |s| && Picks(p, s[..n], init) && Rising(init) && q == if yes then p + [s[n]] else p
    ensures Picks(q, s[..n + 1], idx) && Rising(idx)
    ensures forall i: nat :: i in idx <==> i in init || (yes && i == n)
  {
    idx := if yes then init + [n] else init;
  }

  /** The first so many of rising, or of falling, positions: what is left out comes later. */
  lemma FirstOf(all: seq<nat>, idx: seq<nat>, i: nat)
    requires idx <= all && i in all && i !in idx
    ensures Rising(all) ==> forall k :: 0 <= k < |idx| ==> idx[k] < i
    ensures Falling(all) ==> forall k :: 0 <= k < |idx| ==> idx[k] > i
  {
    var j :| 0 <= j < |all| && all[j] == i;
    assert j >= |idx|;
  }

  lemma LimitPicks(p: seq<string>, s: seq<string>, all: seq<nat>, count: int) returns (idx: seq<nat>)
    requires Picks(p, s, all)
    ensures Picks(Limit(p, count), s, idx) && idx <= all && (count > 0 ==> |idx| <= count)
    ensures idx == all || (count > 0 && |idx| == count)
  {
    idx := if count > 0 && |all| > count then all[..count] else all;
  }

  /** The i-th file is pending and not above the target. */
  ghost predicate Pending(files: seq<string>, applied: set<string>, target: int, i: nat) {
    i < |files| && VersionFromPath(files[i]) !in applied && (target < 0 || i <= target)
  }

  lemma {:induction false} PendingPicks(files: seq<string>, applied: set<string>, target: int, n: nat)
    returns (idx: seq<nat>)
    requires n <= |files|
    ensures Picks(PendingFiles(files[..n], applied, target), files[..n], idx) && Rising(idx)
    ensures forall i: nat :: i in idx <==> i < n && Pending(files, applied, target, i)
    decreases n
  {
    if n == 0 {
      idx := [];
    } else {
      var init := PendingPicks(files, applied, target, n - 1);
      PendingStep(files, applied, target, n - 1);
      idx := PickNext(PendingFiles(files[..n - 1], applied, target), PendingFiles(files[..n], applied, target), files,
                      init, n - 1, Pending(files, applied, target, n - 1));
    }
  }

  /** What the forward plan is, by positions: exactly the files that are pending and not above the target,
      in order; with a count, the first count of them. */
  lemma UpPlanIsExact(files: seq<string>, applied: set<string>, target: int, count: int) returns (idx: seq<nat>)
    ensures Picks(UpPlan(files, applied, target, count), files, idx) && Rising(idx) && (count > 0 ==> |idx| <= count)
    ensures forall i: nat :: i in idx ==> Pending(files, applied, target, i)
    ensures forall i: nat :: Pending(files, applied, target, i) ==>
      i in idx || (count > 0 && |idx| == count && forall k :: 0 <= k < |idx| ==> idx[k] < i)
  {
    assert files[..|files|] == files;
    var all := PendingPicks(files, applied, target, |files|);
    idx := LimitPicks(PendingFiles(files, applied, target), files, all, count);
    forall i: nat | i in all && i !in idx ensures forall k :: 0 <= k < |idx| ==> idx[k] < i {
      FirstOf(all, idx, i);
    }
  }

  /** The position of a version in the forward order; 0 for a version that is not there, as a
      missing key of the position table reads. */
  function Position(order: map<string, nat>, version: string): (p: nat) {
    if version in order then order[version] else 0
  }

  /** The files that are applied and above the target; a negative target is none. */
  ghost function Revertible(files: seq<string>, applied: set<string>, order: map<string, nat>,
                            target: int): (r: set<string>) {
    set f | f in files && VersionFromPath(f) in applied && (target < 0 || Position(order, VersionFromPath(f)) > target)
  }

  /** The backward plan: all applied files above the target, newest first, at most count of them. */
  ghost function DownPlan(files: seq<string>, applied: set<string>, order: map<string, nat>, target: int,
                          count: int): (plan: seq<string>) {
    Limit(Reversed(Filter(files, Revertible(files, applied, order, target))), count)
  }

  lemma {:induction false} FilterPicks(s: seq<string>, keep: set<string>, n: nat) returns (idx: seq<nat>)
    requires n <= |s|
    ensures Picks(Filter(s[..n], keep), s[..n], idx) && Rising(idx)
    ensures forall i: nat :: i in idx <==> i < n && s[i] in keep
    decreases n
  {
    if n == 0 {
      idx := [];
    } else {
      var init := FilterPicks(s, keep, n - 1);
      assert s[..n][..n - 1] == s[..n - 1];
      idx := PickNext(Filter(s[..n - 1], keep), Filter(s[..n], keep), s, init, n - 1, s[n - 1] in keep);
    }
  }

  lemma PicksReversed(p: seq<string>, s: seq<string>, up: seq<nat>) returns (down: seq<nat>)
    requires Picks(p, s, up) && Rising(up)
    ensures Picks(Reversed(p), s, down) && Falling(down) && forall i :: i in down <==> i in up
  {
    down := seq(|up|, k requires 0 <= k < |up| => up[|up| - 1 - k]);
    forall i | i in up ensures i in down {
      var j :| 0 <= j < |up| && up[j] == i;
      assert down[|up| - 1 - j] == i;
    }
  }

  /** The file is applied and above the target, by its position in the forward order. */
  ghost predicate IsAbove(file: string, applied: set<string>, order: map<string, nat>, target: int) {
    VersionFromPath(file) in applied
      && (target < 0 || (VersionFromPath(file) in order && order[VersionFromPath(file)] > target))
  }

  lemma AboveIsRevertible(files: seq<string>, applied: set<string>, order: map<string, nat>, target: int, i: nat)
    requires i < |files|
    ensures files[i] in Revertible(files, applied, order, target) <==> IsAbove(files[i], applied, order, target)
  {
  }

  lemma AllAbove(files: seq<string>, applied: set<string>, order: map<string, nat>, target: int) returns (all: seq<nat>)
    ensures Picks(Reversed(Filter(files, Revertible(files, applied, order, target))), files, all) && Falling(all)
    ensures forall i: nat :: i in all <==> i < |files| && IsAbove(files[i], applied, order, target)
  {
    var keep := Revertible(files, applied, order, target);
    var up := FilterPicks(files, keep, |files|);
    assert files[..|files|] == files;
    all := PicksReversed(Filter(files, keep), files, up);
    forall i: nat ensures i in all <==> i < |files| && IsAbove(files[i], applied, order, target) {
      if i < |files| {
        AboveIsRevertible(files, applied, order, target, i);
      }
    }
  }

  /** What the backward plan is, by positions: exactly the applied files above the target, newest first;
      with a count, the newest count of them. */
  lemma DownPlanIsExact(files: seq<string>, applied: set<string>, order: map<string, nat>, target: int, count: int)
    returns (idx: seq<nat>)
    ensures Picks(DownPlan(files, applied, order, target, count), files, idx) && Falling(idx)
    ensures count > 0 ==> |idx| <= count
    ensures forall i: nat :: i in idx ==> i < |files| && IsAbove(files[i], applied, order, target)
    ensures forall i: nat :: i < |files| && IsAbove(files[i], applied, order, target) ==>
      i in idx || (count > 0 && |idx| == count && forall k :: 0 <= k < |idx| ==> idx[k] > i)
  {
    var all := AllAbove(files, applied, order, target);
    idx := LimitPicks(Reversed(Filter(files, Revertible(files, applied, order, target))), files, all, count);
    forall i: nat | i in all && i !in idx ensures forall k :: 0 <= k < |idx| ==> idx[k] > i {
      FirstOf(all, idx, i);
    }
  }

  /** What the scan from the newest file down collects, with its early exit at the first file that
      is not above the target. */
  ghost function ScanDown(files: seq<string>, applied: set<string>, order: map<string, nat>,
                          target: int): (r: seq<string>) {
    if files == [] then []
    else
      var f, rest := files[|files| - 1], files[..|files| - 1];
      if target >= 0 && Position(order, VersionFromPath(f)) <= target then []
      else (if VersionFromPath(f) in applied then [f] else []) + ScanDown(rest, applied, order, target)
  }

  /** Positions never fall from one file to the next. */
  ghost predicate InOrder(files: seq<string>, order: map<string, nat>) {
    forall i, j :: 0 <= i < j < |files| ==>
        Position(order, VersionFromPath(files[i])) <= Position(order, VersionFromPath(files[j]))
  }

  lemma ReversedSnoc(s: seq<string>, f: string)
    ensures Reversed(s + [f]) == [f] + Reversed(s)
  {
  }

  lemma FilterSnoc(files: seq<string>, keep: set<string>)
    requires files != []
    ensures var f, rest := files[|files| - 1], files[..|files| - 1];
      Reversed(Filter(files, keep)) == if f in keep then [f] + Reversed(Filter(rest, keep))
          else Reversed(Filter(rest, keep))
  {
    var f, rest := files[|files| - 1], files[..|files| - 1];
    if f in keep {
      ReversedSnoc(Filter(rest, keep), f);
    } else {
      assert Filter(files, keep) == Filter(rest, keep);
    }
  }

  lemma NoneAbove(files: seq<string>, all: seq<string>, applied: set<string>, order: map<string, nat>, target: nat)
    requires files != [] && InOrder(files, order) && Position(order, VersionFromPath(files[|files| - 1])) <= target
    ensures forall i :: 0 <= i < |files| ==> files[i] !in Revertible(all, applied, order, target)
  {
  }

  lemma {:induction false} ScanIsFilter(files: seq<string>, all: seq<string>, applied: set<string>, order: map<string,
                                        nat>, target: int)
    requires files <= all && InOrder(files, order)
    ensures ScanDown(files, applied, order, target) == Reversed(Filter(files, Revertible(all, applied, order, target)))
    decreases |files|
  {
    if files != [] {
      var f, rest := files[|files| - 1], files[..|files| - 1];
      var keep := Revertible(all, applied, order, target);
      if target >= 0 && Position(order, VersionFromPath(f)) <= target {
        NoneAbove(files, all, applied, order, target);
        FilterNone(files, keep);
      } else {
        assert f in all;
        ScanIsFilter(rest, all, applied, order, target);
        FilterSnoc(files, keep);
        assert f in keep <==> VersionFromPath(f) in applied;
      }
    }
  }

  lemma {:induction false} ScanStops(files: seq<string>, applied: set<string>, order: map<string, nat>, target: nat,
                                     j: nat)
    requires j < |files| && Position(order, VersionFromPath(files[j])) <= target
    ensures forall f :: f in ScanDown(files, applied, order, target) ==> f in files[j + 1..]
    decreases |files|
  {
    var f, rest := files[|files| - 1], files[..|files| - 1];
    if j < |rest| && Position(order, VersionFromPath(f)) > target {
      ScanStops(rest, applied, order, target, j);
      assert files[j + 1..] == rest[j + 1..] + [f];
    }
  }

  /** The exact condition for the early exit: it drops nothing, for every applied set and every
      target, if and only if the positions are in order along the file list. */
  lemma EarlyExitIsSoundIffInOrder(files: seq<string>, order: map<string, nat>)
    requires Distinct(files)
    ensures InOrder(files, order) <==>
      forall applied, target: int ::
        ScanDown(files, applied, order, target) == Reversed(Filter(files, Revertible(files, applied, order, target)))
  {
    if InOrder(files, order) {
      forall applied, target: int
        ensures ScanDown(files, applied, order, target)
            == Reversed(Filter(files, Revertible(files, applied, order, target)))
      {
        ScanIsFilter(files, files, applied, order, target);
      }
    } else {
      var i, j :| 0 <= i < j < |files|
          && Position(order, VersionFromPath(files[i])) > Position(order, VersionFromPath(files[j]));
      var target := Position(order, VersionFromPath(files[j]));
      var applied := {VersionFromPath(files[i])};
      ScanStops(files, applied, order, target, j);
      var keep := Revertible(files, applied, order, target);
      var plan := Filter(files, keep);
      FilterElements(files, keep);
      assert files[i] in plan;
      var k :| 0 <= k < |plan| && plan[k] == files[i];
      assert Reversed(plan)[|plan| - 1 - k] == files[i];
      assert files[i] in Reversed(plan);
      assert files[i] !in ScanDown(files, applied, order, target);
      assert ScanDown(files, applied, order, target)
          != Reversed(Filter(files, Revertible(files, applied, order, target)));
    }
  }

  /** Every version of the listing has a position at which it stands. */
  ghost predicate IsOrderOf(order: map<string, nat>, files: seq<string>) {
    && (forall i :: 0 <= i < |files| ==> VersionFromPath(files[i]) in order)
    && (forall v :: v in order ==> order[v] < |files| && VersionFromPath(files[order[v]]) == v)
  }

  /** The position table built from the forward listing. */
  method BuildOrder(files: seq<string>) returns (order: map<string, nat>)
    ensures IsOrderOf(order, files)
  {
    order := map[];
    var i := 0;
    while i < |files|
      invariant 0 <= i <= |files|
      invariant forall j :: 0 <= j < i ==> VersionFromPath(files[j]) in order
      invariant forall v :: v in order ==> order[v] < i && VersionFromPath(files[order[v]]) == v
    {
      order := order[VersionFromPath(files[i]) := i];
      i := i + 1;
    }
  }

  /** Real listings are in order: a down listing whose stems all have an up file is traversed in the
      up order, because dot-free stems sort alike under both suffixes. */
  lemma ListingsAreInOrder(up: seq<string>, us: seq<string>, down: seq<string>, ds: seq<string>, order: map<string,
                           nat>)
    requires Listing(up, us, "up") && Listing(down, ds, "down") && IsOrderOf(order, up)
    requires forall i :: 0 <= i < |ds| ==> ds[i] in us
    ensures InOrder(down, order)
  {
    ListedVersions(up, us, "up");
    ListedVersions(down, ds, "down");
    forall i, j | 0 <= i < j < |down|
      ensures Position(order, VersionFromPath(down[i])) <= Position(order, VersionFromPath(down[j]))
    {
      StemIsInOrder(up, us, order, ds[i]);
      StemIsInOrder(up, us, order, ds[j]);
      ListingsAgree(up, us, down, ds, i, j, order[ds[i]], order[ds[j]]);
    }
  }

  lemma StemIsInOrder(up: seq<string>, us: seq<string>, order: map<string, nat>, stem: string)
    requires Listing(up, us, "up") && IsOrderOf(order, up) && stem in us
    ensures stem in order && us[order[stem]] == stem
  {
    ListedVersions(up, us, "up");
    var k :| 0 <= k < |us| && us[k] == stem;
    assert VersionFromPath(up[k]) == stem;
  }

  lemma ScanUnfolds(files: seq<string>, i: nat, applied: set<string>, order: map<string, nat>, target: int)
    requires 0 < i <= |files|
    ensures var version := VersionFromPath(files[i - 1]);
      ScanDown(files[..i], applied, order, target)
      == if target >= 0 && Position(order, version) <= target then []
         else if version in applied then [files[i - 1]] + ScanDown(files[..i - 1], applied, order, target)
         else ScanDown(files[..i - 1], applied, order, target)
  {
    assert files[..i][..i - 1] == files[..i - 1];
  }

  /** full is what has been selected, and the scan of the first i files is what is still to come. */
  ghost predicate ScanSplit(full: seq<string>, selected: seq<string>, rest: seq<string>) {
    full == selected + rest
  }

  lemma TakeOne(full: seq<string>, selected: seq<string>, f: string, rest: seq<string>)
    requires ScanSplit(full, selected, [f] + rest)
    ensures ScanSplit(full, selected + [f], rest)
  {
  }

  lemma StopHere(full: seq<string>, selected: seq<string>, rest: seq<string>, count: int)
    requires ScanSplit(full, selected, rest)
    requires (rest == [] && (count > 0 ==> |selected| <= count)) || (count > 0 && |selected| == count)
    ensures Limit(full, count) == selected
  {
  }

  method CollectDown(files: seq<string>, applied: set<string>, order: map<string, nat>, target: int, count: int)
    returns (selected: seq<string>)
    ensures selected == Limit(ScanDown(files, applied, order, target), count)
  {
    selected := [];
    ghost var full := ScanDown(files, applied, order, target);
    ghost var rest := full;
    var i := |files|;
    assert files[..i] == files;
    while i > 0
      invariant 0 <= i <= |files|
      invariant rest == ScanDown(files[..i], applied, order, target)
      invariant ScanSplit(full, selected, rest)
      invariant count > 0 ==> |selected| < count
    {
      ScanUnfolds(files, i, applied, order, target);
      i := i - 1;
      var f := files[i];
      var version := VersionFromPath(f);
      if target >= 0 && Position(order, version) <= target {
        StopHere(full, selected, rest, count);
        return;
      }
      rest := ScanDown(files[..i], applied, order, target);
      if version !in applied {
        continue;
      }
      TakeOne(full, selected, f, rest);
      selected := selected + [f];
      if count != 0 && |selected| == count {
        StopHere(full, selected, rest, count);
        return;
      }
    }
    StopHere(full, selected, rest, count);
  }

  /** r is what the scan yields for the option values, over a position table of the up listing. */
  ghost predicate ScannedDown(down: seq<string>, up: seq<string>, applied: set<string>, to: string, count: int,
                              order: map<string, nat>, r: Result<seq<string>>)
  {
    && IsOrderOf(order, up)
    && if to == "" then r == Ok(Limit(ScanDown(down, applied, order, -1), count))
       else exists t ::
         Resolves(to, up, t) && r == if t.Ok? then Ok(Limit(ScanDown(down, applied, order, t.value), count))
             else Err(t.error)
  }

  ghost predicate PlannedDown(down: seq<string>, up: seq<string>, applied: set<string>, to: string, count: int,
                              order: map<string, nat>, r: Result<seq<string>>)
  {
    && IsOrderOf(order, up)
    && if to == "" then r == Ok(DownPlan(down, applied, order, -1, count))
       else exists t ::
         Resolves(to, up, t) && r == if t.Ok? then Ok(DownPlan(down, applied, order, t.value, count)) else Err(t.error)
  }

  method SelectDownFiles(down: seq<string>, up: seq<string>, applied: set<string>, to: string, count: int)
    returns (r: Result<seq<string>>)
    ensures exists order :: ScannedDown(down, up, applied, to, count, order, r)
  {
    var target: int := -1;
    if to != "" {
      var t := ResolveTargetIndex(to, up);
      if t.Err? {
        var order := BuildOrder(up);
        assert ScannedDown(down, up, applied, to, count, order, Err(t.error));
        return Err(t.error);
      }
      target := t.value;
      assert Resolves(to, up, t);
    }
    var order := BuildOrder(up);
    var selected := CollectDown(down, applied, order, target, count);
    assert ScannedDown(down, up, applied, to, count, order, Ok(selected));
    return Ok(selected);
  }

  /** On paired listings the scan is the plan: exactly the applied files above the target, newest
      first. */
  lemma ScannedIsPlanned(down: seq<string>, ds: seq<string>, up: seq<string>, us: seq<string>, applied: set<string>,
                         to: string, count: int, order: map<string, nat>, r: Result<seq<string>>)
    requires Listing(up, us, "up") && Listing(down, ds, "down") && forall i :: 0 <= i < |ds| ==> ds[i] in us
    requires ScannedDown(down, up, applied, to, count, order, r)
    ensures PlannedDown(down, up, applied, to, count, order, r)
  {
    ListingsAreInOrder(up, us, down, ds, order);
    if to == "" {
      ScanIsFilter(down, down, applied, order, -1);
    } else {
      var t :| Resolves(to, up, t) && r == if t.Ok? then Ok(Limit(ScanDown(down, applied, order, t.value), count))
          else Err(t.error);
      if t.Ok? {
        ScanIsFilter(down, down, applied, order, t.value);
      }
    }
  }

  /** A down file without an up file breaks it, whatever the names: its position reads as 0, so a
      scan with the first migration as target stops there and hides the applied files below it. */
  lemma UnpairedDownFileHidesOthers(a: string, b: string, c: string)
    requires Listing([Path(a, "up"), Path(b, "up")], [a, b], "up")
    requires Listing([Path(b, "down"), Path(c, "down")], [b, c], "down")
    ensures var up := [Path(a, "up"), Path(b, "up")];
      var down := [Path(b, "down"), Path(c, "down")];
      var order := map[a := 0, b := 1];
      && IsOrderOf(order, up)
      && ScanDown(down, {a, b}, order, 0) == []
      && Path(b, "down") in Revertible(down, {a, b}, order, 0)
  {
    ListedVersions([Path(a, "up"), Path(b, "up")], [a, b], "up");
    ListedVersions([Path(b, "down"), Path(c, "down")], [b, c], "down");
    var us, ds := [a, b], [b, c];
    assert us[0] != us[1] && ds[0] != ds[1];
    if c == a {
      ListingsAgree([Path(a, "up"), Path(b, "up")], us, [Path(b, "down"), Path(c, "down")], ds, 0, 1, 1, 0);
    }
    PathVersion(a, "up");
    PathVersion(b, "up");
    PathVersion(b, "down");
    PathVersion(c, "down");
  }

  // ---------------------------------------------------------------------------------------
  // The schema_migrations table
  // ---------------------------------------------------------------------------------------

  /** The versions of the files with a given prefix. */
  ghost function WithPrefix(files: seq<string>, prefix: string): (r: set<string>) {
    set i | 0 <= i < |files| && PrefixOf(VersionFromPath(files[i])) == prefix :: VersionFromPath(files[i])
  }

  /** The versions that bare-number rows stand for: every migration with that prefix. */
  ghost function Covered(rows: set<string>, files: seq<string>): (r: set<string>) {
    set i | 0 <= i < |files| && PrefixOf(VersionFromPath(files[i])) in rows
        && IsBare(PrefixOf(VersionFromPath(files[i])))
      :: VersionFromPath(files[i])
  }

  /** Rows count as applied, and legacy rows count for all they cover. */
  ghost function Expanded(raw: set<string>, files: seq<string>): (applied: set<string>) {
    raw + Covered(raw, files)
  }

  lemma CoverOneMore(rows: set<string>, v: string, files: seq<string>)
    ensures Covered(rows + {v}, files)
        == if IsBare(v) then Covered(rows, files) + WithPrefix(files, v) else Covered(rows, files)
  {
  }

  method StemsWithPrefix(files: seq<string>, prefix: string) returns (stems: set<string>)
    ensures stems == WithPrefix(files, prefix)
  {
    stems := {};
    var i := 0;
    while i < |files|
      invariant 0 <= i <= |files| && stems == WithPrefix(files[..i], prefix)
    {
      var stem := VersionFromPath(files[i]);
      WithPrefixSnoc(files, i, prefix);
      if PrefixOf(stem) == prefix {
        stems := stems + {stem};
      }
      i := i + 1;
    }
    assert files[..i] == files;
  }

  lemma WithPrefixSnoc(files: seq<string>, i: nat, prefix: string)
    requires i < |files|
    ensures var v := VersionFromPath(files[i]);
      WithPrefix(files[..i + 1], prefix) == WithPrefix(files[..i], prefix) + if PrefixOf(v) == prefix then {v} else {}
  {
    var small, big := files[..i], files[..i + 1];
    assert big[..i] == small && big[i] == files[i];
    assert forall j :: 0 <= j < i ==> big[j] == small[j];
  }

  method ExpandLegacyRows(raw: set<string>, files: seq<string>) returns (applied: set<string>)
    ensures applied == Expanded(raw, files)
  {
    var covered: set<string> := {};
    var todo := raw;
    ghost var done: set<string> := {};
    while todo != {}
      invariant todo + done == raw && covered == Covered(done, files)
      decreases |todo|
    {
      var v :| v in todo;
      CoverOneMore(done, v, files);
      todo, done := todo - {v}, done + {v};
      if IsBare(v) {
        var stems := StemsWithPrefix(files, v);
        covered := covered + stems;
      }
    }
    assert done == raw;
    applied := raw + covered;
  }

  function Recorded(table: set<string>, version: string): (r: set<string>) {
    if PrefixOf(version) == version then table + {version} else table + {version} - {PrefixOf(version)}
  }

  function Removed(table: set<string>, version: string): (r: set<string>) {
    table - {version, PrefixOf(version)}
  }

  ghost function Versions(files: seq<string>): (r: set<string>) {
    set i | 0 <= i < |files| :: VersionFromPath(files[i])
  }

  ghost function AfterUp(table: set<string>, plan: seq<string>): (r: set<string>) {
    if plan == [] then table else Recorded(AfterUp(table, plan[..|plan| - 1]), VersionFromPath(plan[|plan| - 1]))
  }

  ghost function AfterDown(table: set<string>, plan: seq<string>): (r: set<string>) {
    if plan == [] then table else Removed(AfterDown(table, plan[..|plan| - 1]), VersionFromPath(plan[|plan| - 1]))
  }

  class MigrationTable {
    var rows: set<string>

    method RecordApplied(version: string)
      modifies this
      ensures rows == Recorded(old(rows), version)
    {
      var prefix := PrefixOf(version);
      rows := rows + {version};
      if prefix == version {
        return;
      }
      rows := rows - {prefix};
    }

    method RemoveApplied(version: string)
      modifies this
      ensures rows == Removed(old(rows), version)
    {
      rows := rows - {version};
      var prefix := PrefixOf(version);
      if prefix == version {
        return;
      }
      rows := rows - {prefix};
    }

    /** Executes a plan file by file; when the k-th migration fails, the run stops there with the
        earlier ones recorded and nothing else. */
    method Execute(plan: seq<string>, forward: bool, fails: nat -> bool) returns (done: nat)
      modifies this
      ensures done <= |plan| && (done < |plan| ==> fails(done)) && forall k :: 0 <= k < done ==> !fails(k)
      ensures rows == if forward then AfterUp(old(rows), plan[..done]) else AfterDown(old(rows), plan[..done])
    {
      done := 0;
      while done < |plan|
        invariant 0 <= done <= |plan| && forall k :: 0 <= k < done ==> !fails(k)
        invariant rows == if forward then AfterUp(old(rows), plan[..done]) else AfterDown(old(rows), plan[..done])
      {
        if fails(done) {
          return;
        }
        assert plan[..done + 1][..done] == plan[..done];
        if forward {
          RecordApplied(VersionFromPath(plan[done]));
        } else {
          RemoveApplied(VersionFromPath(plan[done]));
        }
        done := done + 1;
      }
    }
  }

  // ---------------------------------------------------------------------------------------
  // Legacy rows
  // ---------------------------------------------------------------------------------------

  lemma StemPrefix(prefix: string, rest: string)
    requires '_' !in prefix
    ensures PrefixOf(prefix + "_" + rest) == prefix && prefix + "_" + rest != prefix
  {
    var stem := prefix + "_" + rest;
    assert stem[|prefix|] == '_';
    assert forall j :: 0 <= j < |prefix| ==> stem[j] == prefix[j];
    var p := PrefixOf(stem);
    assert |p| == |prefix|;
    assert p == stem[..|p|] == prefix;
  }

  /** What booking a version does to the table, exactly: its row comes or goes, and the bare row of its
      prefix, if it has one, goes in both cases. */
  lemma BookingIsExact(table: set<string>, prefix: string, rest: string)
    requires '_' !in prefix
    ensures var stem := prefix + "_" + rest;
      && Recorded(table, stem) == table - {prefix} + {stem} && Removed(table, stem) == table - {prefix} - {stem}
    ensures Recorded(table, prefix) == table + {prefix} && Removed(table, prefix) == table - {prefix}
  {
    StemPrefix(prefix, rest);
    assert PrefixOf(prefix) == prefix;
  }

  /** Which migrations count as applied, exactly: those with a row of their own, and those that are listed
      and whose prefix has a bare row of digits. */
  lemma CountsAsApplied(raw: set<string>, files: seq<string>, prefix: string, rest: string)
    requires '_' !in prefix
    ensures var stem := prefix + "_" + rest;
      stem in Expanded(raw, files) <==>
        stem in raw || (prefix in raw && prefix != "" && (forall i :: 0 <= i < |prefix| ==> '0' <= prefix[i] <= '9')
                        && stem in Versions(files))
    ensures prefix in Expanded(raw, files) <==> prefix in raw
  {
    var stem := prefix + "_" + rest;
    StemPrefix(prefix, rest);
    assert PrefixOf(prefix) == prefix;
  }

  /** The bare row of a prefix covers all migrations of that prefix at once: reverting one of them leaves
      another one applied if and only if it has a row of its own. */
  lemma RevertForgetsSiblings(raw: set<string>, files: seq<string>, prefix: string, one: string, other: string)
    requires '_' !in prefix && one != other
    ensures var reverted, sibling := prefix + "_" + one, prefix + "_" + other;
      sibling in Expanded(Removed(raw, reverted), files) <==> sibling in raw
  {
    var reverted, sibling := prefix + "_" + one, prefix + "_" + other;
    assert reverted[|prefix| + 1..] == one && sibling[|prefix| + 1..] == other;
    BookingIsExact(raw, prefix, one);
    CountsAsApplied(Removed(raw, reverted), files, prefix, other);
  }

  // ---------------------------------------------------------------------------------------
  // Runs round-trip
  // ---------------------------------------------------------------------------------------

  /** No version is the prefix of another one, and none is a bare number. */
  ghost predicate FullStems(versions: set<string>) {
    forall v, w :: v in versions && w in versions ==> !IsBare(v) && (PrefixOf(v) == w ==> v == w)
  }

  lemma {:induction false} UpAdds(table: set<string>, plan: seq<string>, versions: set<string>)
    requires FullStems(versions) && table <= versions && Versions(plan) <= versions
    ensures AfterUp(table, plan) == table + Versions(plan)
    decreases |plan|
  {
    if plan != [] {
      var init, v := plan[..|plan| - 1], VersionFromPath(plan[|plan| - 1]);
      VersionsSnoc(plan);
      UpAdds(table, init, versions);
    }
  }

  lemma {:induction false} DownRemoves(table: set<string>, plan: seq<string>, versions: set<string>)
    requires FullStems(versions) && table <= versions && Versions(plan) <= versions
    ensures AfterDown(table, plan) == table - Versions(plan)
    decreases |plan|
  {
    if plan != [] {
      VersionsSnoc(plan);
      DownRemoves(table, plan[..|plan| - 1], versions);
    }
  }

  lemma VersionsSnoc(plan: seq<string>)
    requires plan != []
    ensures Versions(plan) == Versions(plan[..|plan| - 1]) + {VersionFromPath(plan[|plan| - 1])}
    ensures VersionFromPath(plan[|plan| - 1]) in Versions(plan)
  {
    var init := plan[..|plan| - 1];
    forall v | v in Versions(plan) ensures v in Versions(init) + {VersionFromPath(plan[|plan| - 1])} {
      var i :| 0 <= i < |plan| && v == VersionFromPath(plan[i]);
      if i < |init| { assert init[i] == plan[i]; }
    }
    forall v | v in Versions(init) ensures v in Versions(plan) {
      var i :| 0 <= i < |init| && v == VersionFromPath(init[i]);
      assert plan[i] == init[i];
    }
  }

  /** A table of full-stem rows means itself. */
  lemma FullStemsExpandToThemselves(table: set<string>, files: seq<string>, versions: set<string>)
    requires FullStems(versions) && table <= versions
    ensures Expanded(table, files) == table
  {
  }

  lemma VersionsOfFilter(files: seq<string>, keep: set<string>)
    ensures forall v :: v in Versions(Filter(files, keep)) <==>
        exists f :: f in files && f in keep && VersionFromPath(f) == v
  {
    FilterElements(files, keep);
    var plan := Filter(files, keep);
    forall f | f in plan ensures VersionFromPath(f) in Versions(plan) {
      var i :| 0 <= i < |plan| && plan[i] == f;
    }
  }

  /** The versions of the files up to a target. */
  ghost function Reach(files: seq<string>, target: int): (r: set<string>) {
    set i | 0 <= i < |files| && (target < 0 || i <= target) :: VersionFromPath(files[i])
  }

  lemma {:induction false} PendingVersions(files: seq<string>, applied: set<string>, target: int)
    ensures Versions(PendingFiles(files, applied, target)) == Reach(files, target) - applied
  {
    if files != [] {
      var init, n := files[..|files| - 1], |files| - 1;
      var v := VersionFromPath(files[n]);
      PendingVersions(init, applied, target);
      ReachSnoc(files, target);
      if IsPending(files, applied, target, n) {
        var plan := PendingFiles(files, applied, target);
        assert plan[..|plan| - 1] == PendingFiles(init, applied, target);
        VersionsSnoc(plan);
      }
    }
  }

  lemma ReachSnoc(files: seq<string>, target: int)
    requires files != []
    ensures var init, n := files[..|files| - 1], |files| - 1;
      Reach(files, target) == if target < 0 || n <= target then Reach(init, target) + {VersionFromPath(files[n])}
          else Reach(init, target)
  {
    var init := files[..|files| - 1];
    forall v | v in Reach(init, target) ensures v in Reach(files, target) {
      var i :| 0 <= i < |init| && (target < 0 || i <= target) && VersionFromPath(init[i]) == v;
      assert files[i] == init[i];
    }
    forall v | v in Reach(files, target) ensures v in Reach(init, target) || v == VersionFromPath(files[|files| - 1]) {
      var i :| 0 <= i < |files| && (target < 0 || i <= target) && VersionFromPath(files[i]) == v;
      if i < |init| { assert init[i] == files[i]; }
    }
  }

  lemma {:induction false} NothingPending(files: seq<string>, applied: set<string>, target: int)
    requires Reach(files, target) <= applied
    ensures PendingFiles(files, applied, target) == []
  {
    if files != [] {
      ReachSnoc(files, target);
      NothingPending(files[..|files| - 1], applied, target);
    }
  }

  /** An unlimited up run applies everything up to its target and nothing else, and a second one
      has nothing left to do. */
  lemma UpRunsToTarget(files: seq<string>, table: set<string>, target: int)
    requires FullStems(Versions(files)) && table <= Versions(files)
    ensures var next := AfterUp(table, UpPlan(files, Expanded(table, files), target, 0));
      && next == table + Reach(files, target)
      && next <= Versions(files)
      && UpPlan(files, Expanded(next, files), target, 0) == []
  {
    FullStemsExpandToThemselves(table, files, Versions(files));
    PendingVersions(files, table, target);
    UpAdds(table, PendingFiles(files, table, target), Versions(files));
    var next := table + Reach(files, target);
    assert AfterUp(table, PendingFiles(files, table, target)) == next;
    FullStemsExpandToThemselves(next, files, Versions(files));
    NothingPending(files, next, target);
  }

  /** The stems of the down files that lie above the target. */
  ghost function Above(ds: seq<string>, order: map<string, nat>, target: int): (r: set<string>) {
    set v | v in ds && (target < 0 || Position(order, v) > target)
  }

  /** On a fully migrated table the backward plan reverts every down file above the target. */
  lemma RevertedVersions(down: seq<string>, ds: seq<string>, table: set<string>, order: map<string, nat>, target: int)
    requires Listing(down, ds, "down") && forall i :: 0 <= i < |ds| ==> ds[i] in table
    ensures Versions(Reversed(Filter(down, Revertible(down, table, order, target)))) == Above(ds, order, target)
  {
    ListedVersions(down, ds, "down");
    var keep := Revertible(down, table, order, target);
    ReversedVersions(Filter(down, keep));
    VersionsOfFilter(down, keep);
    forall v | v in Above(ds, order, target) ensures v in Versions(Filter(down, keep)) {
      var i :| 0 <= i < |ds| && ds[i] == v;
      assert down[i] in down && down[i] in keep;
    }
    forall v | v in Versions(Filter(down, keep)) ensures v in Above(ds, order, target) {
      var f :| f in down && f in keep && VersionFromPath(f) == v;
      var i :| 0 <= i < |down| && down[i] == f;
      assert ds[i] == v;
    }
  }

  /** Reverting to a target from a fully migrated table and migrating up again restores the table,
      although migrations without a down file are never reverted. */
  lemma DownThenUpRestores(up: seq<string>, us: seq<string>, down: seq<string>, ds: seq<string>, order: map<string,
                           nat>, target: int)
    requires Listing(up, us, "up") && Listing(down, ds, "down") && forall i :: 0 <= i < |ds| ==> ds[i] in us
    requires IsOrderOf(order, up) && FullStems(Versions(up))
    ensures var table := Versions(up);
      var reverted := AfterDown(table, Limit(ScanDown(down, Expanded(table, up), order, target), 0));
      && reverted == table - Above(ds, order, target)
      && AfterUp(reverted, UpPlan(up, Expanded(reverted, up), -1, 0)) == table
  {
    var table := Versions(up);
    var gone := Above(ds, order, target);
    FullStemsExpandToThemselves(table, up, table);
    StemsAreVersions(up, us, ds);
    var plan := ScanDown(down, table, order, target);
    assert Versions(plan) == gone by {
      ListingsAreInOrder(up, us, down, ds, order);
      ScanIsFilter(down, down, table, order, target);
      RevertedVersions(down, ds, table, order, target);
    }
    DownRemoves(table, plan, table);
    ListedVersions(up, us, "up");
    UpRunsToEnd(up, table - gone);
  }

  lemma StemsAreVersions(up: seq<string>, us: seq<string>, ds: seq<string>)
    requires Listing(up, us, "up") && forall i :: 0 <= i < |ds| ==> ds[i] in us
    ensures forall i :: 0 <= i < |ds| ==> ds[i] in Versions(up)
  {
    ListedVersions(up, us, "up");
    forall i | 0 <= i < |ds| ensures ds[i] in Versions(up) {
      var k :| 0 <= k < |us| && us[k] == ds[i];
      assert VersionFromPath(up[k]) == ds[i];
    }
  }

  lemma UpRunsToEnd(files: seq<string>, table: set<string>)
    requires FullStems(Versions(files)) && table <= Versions(files)
    ensures AfterUp(table, UpPlan(files, Expanded(table, files), -1, 0)) == Versions(files)
  {
    UpRunsToTarget(files, table, -1);
  }

  lemma ReversedVersions(s: seq<string>)
    ensures Versions(Reversed(s)) == Versions(s)
  {
    var r := Reversed(s);
    forall v | v in Versions(s) ensures v in Versions(r) {
      var i :| 0 <= i < |s| && v == VersionFromPath(s[i]);
      assert r[|s| - 1 - i] == s[i];
    }
  }
}
