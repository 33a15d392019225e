/**
The bounded record of the ledger hashes the indexer has already processed.
 */
module LedgerHistory {

  const DEFAULT_REORG_WINDOW: nat := 10

  ghost predicate IsLeast(k: nat, keys: set<nat>) {
    k in keys && forall j :: j in keys ==> k <= j
  }

  lemma {:induction false} LeastExists(keys: set<nat>)
    requires keys != {}
    ensures exists k :: IsLeast(k, keys)
    decreases |keys|
  {
    var x :| x in keys;
    if keys == {x} {
      assert IsLeast(x, keys);
    } else {
      LeastExists(keys - {x});
      var k :| IsLeast(k, keys - {x});
      var m := if x < k then x else k;
      forall j | j in keys ensures m <= j {
        if j != x { assert j in keys - {x}; }
      }
      assert IsLeast(m, keys);
    }
  }

  ghost function Least(keys: set<nat>): (k: nat)
    requires keys != {}
    ensures IsLeast(k, keys)
  {
    LeastExists(keys);
    var k :| IsLeast(k, keys);
    k
  }

  /** What recording one hash leaves behind: an empty hash is ignored, and when the window is
      exceeded the oldest ledger is forgotten. */
  ghost function Recorded(h: map<nat, string>, window: nat, sequence: nat, hash: string): (r: map<nat, string>) {
    if hash == "" then h
    else
      var grown := h[sequence := hash];
      if |grown| > window then grown - {Least(grown.Keys)} else grown
  }

  ghost function Truncated(h: map<nat, string>, sequence: nat): (r: map<nat, string>) {
    map s | s in h && s < sequence :: h[s]
  }

  /** No recorded hash is empty, and the hash of the newest ledger is the one recorded last. */
  lemma RecordedHashes(h: map<nat, string>, window: nat, sequence: nat, hash: string)
    requires forall s :: s in h ==> h[s] != ""
    ensures var r := Recorded(h, window, sequence, hash);
      && (forall s :: s in r ==> r[s] != "")
      && (forall s :: s in r && s != sequence ==> s in h && r[s] == h[s])
      && (sequence in r && hash != "" ==> r[sequence] == hash)
      && (hash == "" ==> forall s :: s in h ==> s in r && r[s] == h[s])
  {
  }

  ghost predicate Ascending(s: seq<nat>) {
    forall i, j :: 0 <= i < j < |s| ==> s[i] < s[j]
  }

  /** What is inserted below the last element stays below it. */
  lemma StaysBelowLast(s: seq<nat>, x: nat, init: seq<nat>)
    requires Ascending(s) && s != [] && x < s[|s| - 1]
    requires forall y :: y in init ==> y in s[..|s| - 1] || y == x
    ensures forall i :: 0 <= i < |init| ==> init[i] < s[|s| - 1]
  {
    var front := s[..|s| - 1];
    forall i | 0 <= i < |init| ensures init[i] < s[|s| - 1] {
      assert init[i] in init;
      if init[i] != x {
        var j :| 0 <= j < |front| && front[j] == init[i];
        assert s[j] < s[|s| - 1];
      }
    }
  }

  /** The effect of appending a new element to an ascending slice and sorting it. */
  function InsertSorted(s: seq<nat>, x: nat): (r: seq<nat>)
    requires Ascending(s) && x !in s
    ensures Ascending(r)
    ensures |r| == |s| + 1
    ensures forall y :: y in r <==> y in s || y == x
  {
    if |s| == 0 || s[|s| - 1] < x then
      var r := s + [x];
      assert forall y :: y in r <==> y in s || y == x;
      r
    else
      var front, last := s[..|s| - 1], s[|s| - 1];
      var init := InsertSorted(front, x);
      var r := init + [last];
      assert s == front + [last];
      assert forall y :: y in s <==> y in front || y == last;
      assert forall y :: y in r <==> y in init || y == last;
      StaysBelowLast(s, x, init);
      r
  }

  ghost function Elements(s: seq<nat>): (r: set<nat>) {
    set x | x in s
  }

  lemma {:induction false} AscendingCardinality(s: seq<nat>)
    requires Ascending(s)
    ensures |Elements(s)| == |s|
  {
    if s != [] {
      var init := s[..|s| - 1];
      AscendingCardinality(init);
      assert Elements(s) == Elements(init) + {s[|s| - 1]};
    }
  }

  ghost function Below(s: seq<nat>, bound: nat): (r: seq<nat>) {
    if s == [] then []
    else
      var last := s[|s| - 1];
      if last < bound then Below(s[..|s| - 1], bound) + [last] else Below(s[..|s| - 1], bound)
  }

  ghost function AtOrAbove(s: seq<nat>, bound: nat): (r: set<nat>) {
    set x | x in s && x >= bound
  }

  lemma ScanOne(s: seq<nat>, i: nat, bound: nat)
    requires i < |s|
    ensures Below(s[..i + 1], bound) == if s[i] < bound then Below(s[..i], bound) + [s[i]] else Below(s[..i], bound)
    ensures AtOrAbove(s[..i + 1], bound) == if s[i] < bound then AtOrAbove(s[..i], bound)
        else AtOrAbove(s[..i], bound) + {s[i]}
  {
    assert s[..i + 1][..i] == s[..i];
    assert s[..i + 1] == s[..i] + [s[i]];
  }

  lemma KeepsBelow(h: map<nat, string>, s: seq<nat>, bound: nat)
    requires h.Keys == Elements(s)
    ensures h - AtOrAbove(s, bound) == Truncated(h, bound)
    ensures Truncated(h, bound).Keys == set x | x in s && x < bound
  {
  }

  lemma {:induction false} BelowFilters(s: seq<nat>, bound: nat)
    requires Ascending(s)
    ensures Ascending(Below(s, bound)) && |Below(s, bound)| <= |s|
    ensures Elements(Below(s, bound)) == set x | x in s && x < bound
  {
    if s != [] {
      var init, last := s[..|s| - 1], s[|s| - 1];
      BelowFilters(init, bound);
      var kept := Below(init, bound);
      forall i | 0 <= i < |kept| ensures kept[i] < last {
        assert kept[i] in Elements(kept);
      }
      assert Elements(kept + [last]) == Elements(kept) + {last};
      assert s == init + [last];
      assert (set x | x in s && x < bound)
          == (set x | x in init && x < bound) + if last < bound then {last} else {};
    }
  }

  lemma PopOldest(s: seq<nat>)
    requires Ascending(s) && s != []
    ensures s[0] in Elements(s)
    ensures Ascending(s[1..]) && Elements(s[1..]) == Elements(s) - {s[0]}
    ensures s[0] == Least(Elements(s))
  {
    assert s == [s[0]] + s[1..];
    assert IsLeast(s[0], Elements(s));
  }

  class History {
    var hashes: map<nat, string>
    var order: seq<nat>
    const window: nat

    ghost predicate Valid()
      reads this
    {
      && window > 0
      && Ascending(order)
      && |order| <= window
      && hashes.Keys == Elements(order)
    }

    constructor (window: int)
      ensures Valid() && hashes == map[]
      ensures this.window == if window > 0 then window else 10
    {
      this.window := if window <= 0 then DEFAULT_REORG_WINDOW else window;
      this.hashes := map[];
      this.order := [];
    }

    /** Notes the hash of a processed ledger and evicts the oldest entries beyond the window. */
    method Record(sequence: nat, hash: string)
      requires Valid()
      modifies this
      ensures Valid()
      ensures hashes == Recorded(old(hashes), window, sequence, hash)
    {
      if hash == "" {
        return;
      }
      if sequence !in hashes {
        order := InsertSorted(order, sequence);
      }
      hashes := hashes[sequence := hash];
      ghost var grown := hashes;
      assert grown.Keys == Elements(order);
      AscendingCardinality(order);
      while |order| > window
        invariant Ascending(order) && hashes.Keys == Elements(order)
        invariant window <= |order| <= window + 1 || hashes == grown
        invariant |order| > window ==> hashes == grown && |order| == window + 1
        invariant |order| <= window ==> hashes == if |grown| > window then grown - {Least(grown.Keys)} else grown
      {
        PopOldest(order);
        var oldest := order[0];
        order := order[1..];
        hashes := hashes - {oldest};
      }
    }

    /** The recorded hash of a ledger, and whether it is still inside the window. */
    method Hash(sequence: nat) returns (hash: string, ok: bool)
      requires Valid()
      ensures ok <==> sequence in hashes
      ensures ok ==> hash == hashes[sequence]
    {
      if sequence in hashes {
        return hashes[sequence], true;
      }
      return "", false;
    }

    /** Drops every record at or after sequence. */
    method Truncate(sequence: nat)
      requires Valid()
      modifies this
      ensures Valid()
      ensures hashes == Truncated(old(hashes), sequence)
    {
      var kept: seq<nat> := [];
      var i := 0;
      while i < |order|
        invariant 0 <= i <= |order| && order == old(order)
        invariant kept == Below(order[..i], sequence)
        invariant hashes == old(hashes) - AtOrAbove(order[..i], sequence)
      {
        var s := order[i];
        ScanOne(order, i, sequence);
        if s < sequence {
          kept := kept + [s];
        } else {
          hashes := hashes - {s};
        }
        i := i + 1;
      }
      assert order[..i] == order;
      BelowFilters(order, sequence);
      KeepsBelow(old(hashes), order, sequence);
      order := kept;
    }
  }
}
