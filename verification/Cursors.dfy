/**
The cursor row: the last ledger the indexer has finished with.
 */
module Cursors {
  import opened Wrappers

  /** What the guarded UPDATE leaves in the row: it only ever advances an existing row. */
  function Advanced(row: Option<nat>, lastLedger: nat): (r: Option<nat>)
    ensures r.Some? <==> row.Some?
    ensures r.Some? ==> row.value <= r.value && lastLedger <= r.value
    ensures r.Some? ==> r.value == row.value || r.value == lastLedger
  {
    if row.Some? && row.value < lastLedger then Some(lastLedger) else row
  }

  datatype UpdateResult = Updated | InvalidLedger | CursorMissing | DatabaseError

  class CursorTracker {
    var row: Option<nat>

    constructor (row: Option<nat>)
      ensures this.row == row
    {
      this.row := row;
    }

    method GetCurrent(dbOk: bool) returns (cursor: Option<nat>)
      ensures cursor == if dbOk then row else None
    {
      if !dbOk {
        return None;
      }
      return row;
    }

    /** Moves an existing row to lastLedger, backwards too. */
    method Rewind(lastLedger: nat, dbOk: bool) returns (ok: bool)
      modifies this
      ensures ok == dbOk
      ensures row == if ok && old(row).Some? then Some(lastLedger) else old(row)
    {
      if !dbOk {
        return false;
      }
      if row.Some? {
        row := Some(lastLedger);
      }
      return true;
    }

    /** Advances the row to lastLedger; an older or equal ledger is a no-op and a missing row is
        an error. */
    method Update(lastLedger: int, dbOk: bool) returns (r: UpdateResult)
      modifies this
      ensures r == if lastLedger < 0 then InvalidLedger else if !dbOk then DatabaseError
                   else if old(row).None? then CursorMissing else Updated
      ensures row == if r == Updated then Advanced(old(row), lastLedger) else old(row)
    {
      if lastLedger < 0 {
        return InvalidLedger;
      }
      if !dbOk {
        return DatabaseError;
      }
      if row.Some? && row.value < lastLedger {
        row := Some(lastLedger);
        return Updated;
      }
      if row.None? {
        return CursorMissing;
      }
      return Updated;
    }
  }
}
