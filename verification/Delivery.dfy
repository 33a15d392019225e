/**
Which rows a poll stores: exactly which transactions are delivered, and which ones a rollback loses.
 */
module Delivery {
  import opened Ledgers
  import opened Reorg
  import opened Wrappers
  import opened Engine
  import LH = LedgerHistory

  // ---------------------------------------------------------------------------------------
  // First occurrences
  // ---------------------------------------------------------------------------------------

  /** The first transaction with a hash. */
  ghost function FirstTx(txs: seq<Tx>, hash: string): (first: Option<Tx>) {
    if txs == [] then None
    else
      var before, tx := FirstTx(txs[..|txs| - 1], hash), txs[|txs| - 1];
      if before.Some? then before else if tx.hash == hash then Some(tx) else None
  }

  datatype Occurrence = Occurrence(ledger: Ledger, tx: Tx)

  /** The first occurrence of a transaction on a page. */
  ghost function FirstOn(page: seq<Ledger>, txns: map<nat, seq<Tx>>, hash: string): (first: Option<Occurrence>) {
    if page == [] then None
    else
      var before, l := FirstOn(page[..|page| - 1], txns, hash), page[|page| - 1];
      if before.Some? then before
      else
        var tx := FirstTx(TxsOf(txns, l), hash);
        if tx.Some? then Some(Occurrence(l, tx.value)) else None
  }

  ghost predicate Mentions(txs: seq<Tx>, hash: string) {
    exists i :: 0 <= i < |txs| && txs[i].hash == hash
  }

  lemma {:induction false} FirstTxIsFirst(txs: seq<Tx>, hash: string)
    ensures var first := FirstTx(txs, hash);
      if first.None? then !Mentions(txs, hash)
      else exists i :: 0 <= i < |txs| && txs[i] == first.value && txs[i].hash == hash && !Mentions(txs[..i], hash)
  {
    if txs != [] {
      var n := |txs| - 1;
      FirstTxIsFirst(txs[..n], hash);
      var before := FirstTx(txs[..n], hash);
      if before.Some? {
        var i :| 0 <= i < n && txs[i] == before.value && txs[i].hash == hash && !Mentions(txs[..n][..i], hash);
        assert txs[..n][..i] == txs[..i];
      } else {
        assert forall i :: 0 <= i < n ==> txs[..n][i] == txs[i];
      }
    }
  }

  /** The first occurrence is what its name says: no ledger before it mentions the transaction. */
  lemma {:induction false} FirstOnIsFirst(page: seq<Ledger>, txns: map<nat, seq<Tx>>, hash: string)
    ensures var first := FirstOn(page, txns, hash);
      if first.None? then forall i :: 0 <= i < |page| ==> !Mentions(TxsOf(txns, page[i]), hash)
      else exists i ::
        && 0 <= i < |page| && page[i] == first.value.ledger
        && FirstTx(TxsOf(txns, page[i]), hash) == Some(first.value.tx)
        && forall j :: 0 <= j < i ==> !Mentions(TxsOf(txns, page[j]), hash)
  {
    if page != [] {
      var n := |page| - 1;
      FirstOnIsFirst(page[..n], txns, hash);
      FirstTxIsFirst(TxsOf(txns, page[n]), hash);
      assert page == page[..n] + [page[n]];
    }
  }

  // ---------------------------------------------------------------------------------------
  // Exactly what is delivered
  // ---------------------------------------------------------------------------------------

  /** The row of r's event that the occurrence asks for and that the table is free to take. */
  ghost predicate Due(sink: Sink, first: Option<Occurrence>, r: Row) {
    && first.Some? && r.tx !in sink.seen && !Taken(sink.rows, r.tx, r.event)
    && r.ledger == first.value.ledger.sequence && r.branch == first.value.ledger.hash
    && r.event in first.value.tx.events
  }

  ghost function FirstAt(l: Ledger, txs: seq<Tx>, hash: string): (first: Option<Occurrence>) {
    var tx := FirstTx(txs, hash);
    if tx.Some? then Some(Occurrence(l, tx.value)) else None
  }

  /** d holds what sink held, and exactly the rows that are due. */
  ghost predicate DeliversExactly(sink: Sink, d: Sink, first: string -> Option<Occurrence>) {
    && (forall r :: r in d.rows <==> r in sink.rows || Due(sink, first(r.tx), r))
    && (forall hash :: hash in d.seen <==> hash in sink.seen || first(hash).Some?)
  }

  lemma StoreExactly(rows: set<Row>, l: Ledger, tx: Tx, r: Row)
    ensures r in Store(rows, l, tx.hash, tx.events) <==>
      r in rows || (r.tx == tx.hash && r.event in tx.events && !Taken(rows, tx.hash, r.event)
                    && r.ledger == l.sequence && r.branch == l.hash)
  {
    assert r == Row(r.ledger, r.branch, r.tx, r.event);
  }

  /** Rows of transactions that were not seen yet are the old ones only. */
  lemma UnseenIsUntouched(sink: Sink, d: Sink, first: string -> Option<Occurrence>, hash: string, event: string)
    requires DeliversExactly(sink, d, first) && first(hash).None?
    ensures Taken(d.rows, hash, event) <==> Taken(sink.rows, hash, event)
  {
    if Taken(sink.rows, hash, event) {
      var r :| r in sink.rows && r.tx == hash && r.event == event;
      assert r in d.rows;
    }
  }

  lemma {:induction false} DeliverIsExact(sink: Sink, l: Ledger, txs: seq<Tx>)
    ensures DeliversExactly(sink, Deliver(sink, l, txs), hash => FirstAt(l, txs, hash))
  {
    var first := hash => FirstAt(l, txs, hash);
    if txs != [] {
      var init, tx := txs[..|txs| - 1], txs[|txs| - 1];
      DeliverIsExact(sink, l, init);
      var before := Deliver(sink, l, init);
      var firstBefore := hash => FirstAt(l, init, hash);
      assert forall hash :: hash != tx.hash || firstBefore(hash).Some? ==> first(hash) == firstBefore(hash);
      if tx.hash !in before.seen {
        assert firstBefore(tx.hash).None? && first(tx.hash) == Some(Occurrence(l, tx));
        forall r ensures r in Deliver(sink, l, txs).rows <==> r in sink.rows || Due(sink, first(r.tx), r) {
          StoreExactly(before.rows, l, tx, r);
          if r.tx == tx.hash {
            UnseenIsUntouched(sink, before, firstBefore, r.tx, r.event);
          }
        }
      }
    }
  }

  /** Two deliveries in a row: an occurrence in the first one counts. */
  lemma DeliveriesCompose(sink: Sink, mid: Sink, d: Sink, earlier: string -> Option<Occurrence>,
                          later: string -> Option<Occurrence>, first: string -> Option<Occurrence>)
    requires DeliversExactly(sink, mid, earlier) && DeliversExactly(mid, d, later)
    requires forall hash :: first(hash) == if earlier(hash).Some? then earlier(hash) else later(hash)
    ensures DeliversExactly(sink, d, first)
  {
    forall r ensures r in d.rows <==> r in sink.rows || Due(sink, first(r.tx), r) {
      if earlier(r.tx).None? {
        UnseenIsUntouched(sink, mid, earlier, r.tx, r.event);
      }
    }
  }

  ghost function SinkOf(st: State): (sink: Sink) {
    Sink(st.rows, st.seen)
  }

  lemma {:induction false} VisitAllIsExact(st: State, window: nat, page: seq<Ledger>, txns: map<nat, seq<Tx>>)
    ensures DeliversExactly(SinkOf(st), SinkOf(VisitAll(st, window, page, txns)), hash => FirstOn(page, txns, hash))
  {
    if page != [] {
      var init, l := page[..|page| - 1], page[|page| - 1];
      VisitAllIsExact(st, window, init, txns);
      var v := VisitAll(st, window, init, txns);
      DeliverIsExact(SinkOf(v), l, TxsOf(txns, l));
      DeliveriesCompose(SinkOf(st), SinkOf(v), SinkOf(VisitAll(st, window, page, txns)),
                        hash => FirstOn(init, txns, hash), hash => FirstAt(l, TxsOf(txns, l), hash),
                        hash => FirstOn(page, txns, hash));
    }
  }

  /** The state after the reorg check of a poll, and the page that the poll goes on to visit. */
  ghost function Checked(st: State, window: nat, e: Env): (res: (State, Outcome, nat))
    requires st.row.Some?
  {
    CheckReorg(st.(seen := st.seen - e.expired), window, e, st.row.value)
  }

  ghost function PageOf(st: State, window: nat, e: Env): (page: seq<Ledger>)
    requires st.row.Some?
  {
    if e.readOk && Checked(st, window, e).1 == Done && e.fetchOk
    then FetchLedgers(e.chain, Checked(st, window, e).2, e.batchSize) else []
  }

  /** What a poll stores, exactly: the rows that its reorg check leaves, and a row for every event of
      the first occurrence on the page of every transaction that the deduplicator does not know, where
      the unique index is free. */
  lemma PollDeliversExactly(st: State, window: nat, e: Env)
    requires st.row.Some? && e.readOk
    ensures DeliversExactly(SinkOf(Checked(st, window, e).0), SinkOf(Poll(st, window, e).0),
                            hash => FirstOn(PageOf(st, window, e), e.txns, hash))
    ensures Checked(st, window, e).0.seen == st.seen - e.expired
  {
    var checked := Checked(st, window, e);
    PollUnfolds(st, window, e, st.row.value);
    VisitAllIsExact(checked.0, window, PageOf(st, window, e), e.txns);
  }

  /** A transaction's event has a row after a poll if and only if its row was there before and the
      rollback left it, or the transaction is unknown to the deduplicator and its first occurrence
      on the page stores the event. */
  lemma EventIsStoredIff(st: State, window: nat, e: Env, hash: string, event: string)
    requires st.row.Some? && e.readOk
    ensures Taken(Poll(st, window, e).0.rows, hash, event) <==>
      || Taken(Checked(st, window, e).0.rows, hash, event)
      || (hash !in st.seen - e.expired
          && var first := FirstOn(PageOf(st, window, e), e.txns, hash); first.Some? && event in first.value.tx.events)
  {
    PollDeliversExactly(st, window, e);
    var before, next := Checked(st, window, e).0, Poll(st, window, e).0;
    var first := FirstOn(PageOf(st, window, e), e.txns, hash);
    if Taken(before.rows, hash, event) {
      var r :| r in before.rows && r.tx == hash && r.event == event;
      assert r in next.rows;
    } else if hash !in before.seen && first.Some? && event in first.value.tx.events {
      var r := Row(first.value.ledger.sequence, first.value.ledger.hash, hash, event);
      assert Due(SinkOf(before), first, r);
      assert r in next.rows;
    }
  }

  // ---------------------------------------------------------------------------------------
  // Rows that a repair loses
  // ---------------------------------------------------------------------------------------

  /** The unique index: an event of a transaction has at most one row. */
  ghost predicate Keyed(rows: set<Row>) {
    forall r, s :: r in rows && s in rows && r.tx == s.tx && r.event == s.event ==> r == s
  }

  /** After a rollback that left no row of the event, only the deduplicator stands in its way. */
  lemma StoredAfterRollback(st: State, window: nat, e: Env, res: (State, Outcome, nat), hash: string, event: string)
    requires st.row.Some? && e.readOk && e.fetchOk && res == Checked(st, window, e)
    requires res.1 == Done && !Taken(res.0.rows, hash, event)
    ensures var first := FirstOn(FetchLedgers(e.chain, res.2, e.batchSize), e.txns, hash);
      Taken(Poll(st, window, e).0.rows, hash, event) <==>
        hash !in st.seen - e.expired && first.Some? && event in first.value.tx.events
  {
    EventIsStoredIff(st, window, e, hash, event);
  }

  /** The check looks at no deduplicator. */
  lemma CheckIgnoresSeen(st: State, window: nat, e: Env, seen: set<string>)
    requires st.row.Some?
    ensures var a, b := Checked(st, window, e), Checked(st.(seen := seen), window, e);
      a.0.rows == b.0.rows && a.1 == b.1 && a.2 == b.2
  {
  }

  lemma RemovedRowIsFree(st: State, window: nat, e: Env, r0: Row)
    requires st.row.Some? && Keyed(st.rows) && r0 in st.rows && r0 !in Checked(st, window, e).0.rows
    ensures !Taken(Checked(st, window, e).0.rows, r0.tx, r0.event)
  {
    assert Checked(st, window, e).0.rows <= st.rows;
  }

  /** A transaction that is on both branches loses its row in a reorganization: a row that the rollback
      of a poll removes is not stored again by its replay as long as the deduplicator knows the
      transaction, although the replayed page holds it and would have stored it had the deduplicator
      forgotten. */
  lemma RepairLosesRow(st: State, window: nat, e: Env, r0: Row)
    requires st.row.Some? && e.readOk && e.fetchOk && Checked(st, window, e).1 == Done
    requires Keyed(st.rows) && r0 in st.rows && r0 !in Checked(st, window, e).0.rows && r0.tx in st.seen - e.expired
    ensures !Taken(Poll(st, window, e).0.rows, r0.tx, r0.event)
    ensures var first := FirstOn(FetchLedgers(e.chain, Checked(st, window, e).2, e.batchSize), e.txns, r0.tx);
      first.Some? && r0.event in first.value.tx.events ==>
        Taken(Poll(st.(seen := st.seen - {r0.tx}), window, e).0.rows, r0.tx, r0.event)
  {
    RemovedRowIsFree(st, window, e, r0);
    StoredAfterRollback(st, window, e, Checked(st, window, e), r0.tx, r0.event);
    var forgetful := st.(seen := st.seen - {r0.tx});
    CheckIgnoresSeen(st, window, e, forgetful.seen);
    StoredAfterRollback(forgetful, window, e, Checked(forgetful, window, e), r0.tx, r0.event);
  }
}
