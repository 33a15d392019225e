/**
The ledger chain that Horizon serves and the indexer follows.

A chain is the sequence of ledgers 1, 2, 3, ...; the environment may replace it by another
branch at any time. Ledgers are hash-chained: every header names the hash of its predecessor,
and header hashes do not collide.
 */
module Ledgers {

  datatype Ledger = Ledger(sequence: nat, hash: string, prevHash: string)

  /** ls holds the consecutive ledgers base+1, base+2, ... */
  ghost predicate Numbered(ls: seq<Ledger>, base: nat) {
    forall i :: 0 <= i < |ls| ==> ls[i].sequence == base + 1 + i
  }

  /** ls is a run of consecutive, hash-chained ledgers that starts at base+1. */
  ghost predicate Linked(ls: seq<Ledger>, base: nat) {
    && Numbered(ls, base)
    && (forall i :: 0 <= i < |ls| ==> ls[i].hash != "")
    && (forall i {:trigger ls[i].prevHash} :: 0 < i < |ls| ==> ls[i].prevHash == ls[i - 1].hash)
  }

  ghost predicate Collide(a: Ledger, b: Ledger) {
    a.hash == b.hash
  }

  /** No two different ledgers of the world share a hash. */
  ghost predicate CollisionFree(world: set<Ledger>) {
    forall a, b {:trigger Collide(a, b)} :: a in world && b in world && Collide(a, b) ==> a == b
  }

  ghost predicate Within(ls: seq<Ledger>, world: set<Ledger>) {
    forall i :: 0 <= i < |ls| ==> ls[i] in world
  }

  /** The ledgers after the cursor, at most limit of them, in ascending order. */
  function FetchLedgers(chain: seq<Ledger>, cursor: nat, limit: nat): (page: seq<Ledger>)
    ensures |page| == if |chain| <= cursor then 0 else if |chain| < cursor + limit then |chain| - cursor else limit
  {
    if cursor >= |chain| then []
    else if cursor + limit <= |chain| then chain[cursor..cursor + limit]
    else chain[cursor..]
  }

  /** A page is the stretch of the chain that follows the cursor. */
  lemma FetchedPage(chain: seq<Ledger>, cursor: nat, limit: nat)
    ensures var page := FetchLedgers(chain, cursor, limit);
      && (forall i :: 0 <= i < |page| ==> page[i] == chain[cursor + i])
      && (forall l :: l in page ==> l in chain)
      && (Numbered(chain, 0) ==> Numbered(page, cursor))
  {
  }

  /** The branch ix (ledgers base+1, ...) and the chain hold the same hash at ledger s. */
  ghost predicate SameAt(ix: seq<Ledger>, base: nat, chain: seq<Ledger>, s: nat)
    requires base < s <= base + |ix| && s <= |chain|
  {
    ix[s - base - 1].hash == chain[s - 1].hash
  }

  /** Wherever both the branch and the chain have a ledger, it is the same one. */
  ghost predicate Agrees(ix: seq<Ledger>, base: nat, chain: seq<Ledger>) {
    forall s :: base < s <= base + |ix| && s <= |chain| ==> SameAt(ix, base, chain, s)
  }

  /** f is the fork: the least ledger above base at which the branch and the chain differ. */
  ghost predicate IsFork(ix: seq<Ledger>, base: nat, chain: seq<Ledger>, f: nat) {
    && base < f <= base + |ix| && f <= |chain|
    && !SameAt(ix, base, chain, f)
    && forall s :: base < s < f ==> SameAt(ix, base, chain, s)
  }

  lemma OneBelow(a: seq<Ledger>, i: nat, b: seq<Ledger>, j: nat)
    requires 0 < i < |a| && 0 < j < |b| && a[i] == b[j]
    requires a[i].prevHash == a[i - 1].hash && b[j].prevHash == b[j - 1].hash
    ensures a[i - 1].hash == b[j - 1].hash
  {
  }

  lemma SameHashIsSame(a: seq<Ledger>, i: nat, b: seq<Ledger>, j: nat, world: set<Ledger>)
    requires CollisionFree(world) && Within(a, world) && Within(b, world)
    requires i < |a| && j < |b| && a[i].hash == b[j].hash
    ensures a[i] == b[j]
  {
    assert Collide(a[i], b[j]);
  }

  /** Two hash-chained branches that meet at ledger k are equal at every ledger below k. */
  lemma {:induction false} MeetingBranchesShareThePast(
    ix: seq<Ledger>, base: nat, chain: seq<Ledger>, world: set<Ledger>, k: nat, j: nat)
    requires Linked(ix, base) && Linked(chain, 0)
    requires CollisionFree(world) && Within(ix, world) && Within(chain, world)
    requires base < j <= k <= base + |ix| && k <= |chain|
    requires SameAt(ix, base, chain, k)
    ensures SameAt(ix, base, chain, j)
    ensures ix[j - base - 1] == chain[j - 1]
    decreases k - j
  {
    if j < k {
      MeetingBranchesShareThePast(ix, base, chain, world, k, j + 1);
      OneBelow(ix, j - base, chain, j);
    }
    SameHashIsSame(ix, j - base - 1, chain, j - 1, world);
  }

  /** So they agree at every ledger up to one at which they agree. */
  lemma AgreementUpTo(ix: seq<Ledger>, base: nat, chain: seq<Ledger>, world: set<Ledger>, k: nat)
    requires Linked(ix, base) && Linked(chain, 0)
    requires CollisionFree(world) && Within(ix, world) && Within(chain, world)
    requires base <= k <= base + |ix| && k <= |chain|
    requires k > base ==> SameAt(ix, base, chain, k)
    ensures forall s :: base < s <= k ==> SameAt(ix, base, chain, s)
  {
    forall s | base < s <= k ensures SameAt(ix, base, chain, s) {
      MeetingBranchesShareThePast(ix, base, chain, world, k, s);
    }
  }
}
