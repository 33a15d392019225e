/**
Branches that the environment can swap in: for every chain there is another one that parts from it at
any given ledger and collides with nothing.
 */
module Swaps {
  import opened Ledgers

  /** A hash of n characters. */
  function Filler(n: nat): (hash: string)
    ensures |hash| == n
  {
    seq(n, _ => 'f')
  }

  ghost predicate ShorterThan(world: set<Ledger>, n: nat) {
    forall l :: l in world ==> |l.hash| < n
  }

  lemma {:induction false} LongHashExists(world: set<Ledger>)
    ensures exists n: nat :: n > 0 && ShorterThan(world, n)
    decreases |world|
  {
    if world == {} {
      assert ShorterThan(world, 1);
    } else {
      var l :| l in world;
      LongHashExists(world - {l});
      var n: nat :| n > 0 && ShorterThan(world - {l}, n);
      var m := n + |l.hash| + 1;
      forall x | x in world ensures |x.hash| < m {
        if x != l { assert x in world - {l}; }
      }
      assert ShorterThan(world, m);
    }
  }

  function Fresh(i: nat, k: nat, base: nat, prev: string): (l: Ledger)
    requires k <= i
  {
    Ledger(i + 1, Filler(base + i), if i == k then prev else Filler(base + i - 1))
  }

  /** The chain that keeps the first k ledgers and replaces everything up to ledger n. */
  function Swapped(chain: seq<Ledger>, k: nat, n: nat, base: nat): (r: seq<Ledger>)
    requires k <= |chain| && k <= n && base > 0
    ensures |r| == n
    ensures forall i :: 0 <= i < k ==> r[i] == chain[i]
    ensures forall i :: k <= i < n ==> r[i] == Fresh(i, k, base, if k == 0 then "" else chain[k - 1].hash)
  {
    chain[..k] + seq(n - k, i requires 0 <= i => Fresh(k + i, k, base, if k == 0 then "" else chain[k - 1].hash))
  }

  ghost function LedgerSet(ls: seq<Ledger>): (r: set<Ledger>) {
    set l | l in ls
  }

  lemma SwappedLinks(chain: seq<Ledger>, k: nat, n: nat, base: nat)
    requires Linked(chain, 0) && k <= |chain| && k <= n && base > 0
    ensures Linked(Swapped(chain, k, n, base), 0)
  {
    var r := Swapped(chain, k, n, base);
    forall i | 0 < i < |r| ensures r[i].prevHash == r[i - 1].hash {
      if i < k {
        assert r[i] == chain[i] && r[i - 1] == chain[i - 1];
        assert chain[i].prevHash == chain[i - 1].hash;
      }
    }
  }

  /** A ledger of the swapped chain is an old one, or its hash tells its position. */
  lemma SwappedLedger(chain: seq<Ledger>, k: nat, n: nat, base: nat, world: set<Ledger>, l: Ledger)
    requires k <= |chain| && k <= n && base > 0 && Within(chain, world)
    requires l in LedgerSet(Swapped(chain, k, n, base))
    ensures l in world || (exists i :: k <= i < n && l == Swapped(chain, k, n, base)[i] && |l.hash| == base + i)
  {
    var r := Swapped(chain, k, n, base);
    var i :| 0 <= i < |r| && r[i] == l;
    if i < k {
      assert l == chain[i];
    }
  }

  /** The swapped chain is again a branch of a world without collisions. */
  lemma SwappedIsCollisionFree(chain: seq<Ledger>, k: nat, n: nat, base: nat, world: set<Ledger>)
    requires k <= |chain| && k <= n && base > 0
    requires CollisionFree(world) && Within(chain, world) && ShorterThan(world, base)
    ensures CollisionFree(world + LedgerSet(Swapped(chain, k, n, base)))
  {
    var r := Swapped(chain, k, n, base);
    var all := world + LedgerSet(r);
    forall a, b | a in all && b in all && Collide(a, b) ensures a == b {
      if a !in world {
        SwappedLedger(chain, k, n, base, world, a);
      }
      if b !in world {
        SwappedLedger(chain, k, n, base, world, b);
      }
    }
  }

  /** Some branch keeps the first k ledgers of the chain; its later hashes are longer than any of the
      world, and longer than size. */
  lemma SwapAbove(chain: seq<Ledger>, k: nat, n: nat, world: set<Ledger>, size: nat)
    returns (r: seq<Ledger>, wider: set<Ledger>)
    requires Linked(chain, 0) && k <= |chain| && k <= n
    requires CollisionFree(world) && Within(chain, world)
    ensures |r| == n && Linked(r, 0) && Within(r, wider) && CollisionFree(wider) && world <= wider
    ensures forall i :: 0 <= i < k ==> r[i] == chain[i]
    ensures forall i :: k <= i < n ==> |r[i].hash| > size
  {
    LongHashExists(world);
    var base: nat :| base > 0 && ShorterThan(world, base);
    base := base + size + 1;
    r := Swapped(chain, k, n, base);
    SwappedLinks(chain, k, n, base);
    SwappedIsCollisionFree(chain, k, n, base, world);
    wider := world + LedgerSet(r);
  }
}
