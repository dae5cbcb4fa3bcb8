/** Worker leases and the single table that arbitrates between managers. */
module Leases {
  import opened Names
  import opened Wrappers

  /** The zero instant, which the Go code treats as "not set". */
  const ZERO_TIME: int := 0

  /** Instants are integer nanoseconds. */
  datatype Lease = Lease(target: Name, worker: Name, job: Name, now: int, expires: int)

  datatype Row = Row(worker: Name, job: Name, expires: int, updated: int)

  /** The worker_leases table: one row a target, the primary key. */
  type Table = map<Name, Row>

  datatype LeaseError = NoTarget | NoWorker | NoJob | NoNow | NotAfterNow

  function Validate(l: Lease): (e: Option<LeaseError>)
    ensures e.None? <==> l.target != EMPTY && l.worker != EMPTY && l.job != EMPTY && l.now != ZERO_TIME &&
                         l.expires != ZERO_TIME && l.now < l.expires
  {
    if l.target == EMPTY then Some(NoTarget)
    else if l.worker == EMPTY then Some(NoWorker)
    else if l.job == EMPTY then Some(NoJob)
    else if l.now == ZERO_TIME then Some(NoNow)
    else if l.expires == ZERO_TIME || l.expires <= l.now then Some(NotAfterNow)
    else None
  }

  /** The row belongs to this worker and this job. */
  predicate Owns(rows: Table, l: Lease) {
    l.target in rows && rows[l.target].worker == l.worker && rows[l.target].job == l.job
  }

  /** The WHERE clause of the upsert: no row, an expired row, or our own row. */
  predicate Free(rows: Table, l: Lease) {
    l.target !in rows || rows[l.target].expires <= l.now || Owns(rows, l)
  }

  /** The WHERE clause of the renewal: our own row, not yet expired. */
  predicate Renewable(rows: Table, l: Lease) {
    Owns(rows, l) && rows[l.target].expires > l.now
  }

  function RowOf(l: Lease): Row {
    Row(l.worker, l.job, l.expires, l.now)
  }

  function AfterAcquire(rows: Table, l: Lease): Table {
    if Free(rows, l) then rows[l.target := RowOf(l)] else rows
  }

  function AfterRenew(rows: Table, l: Lease): Table {
    if Renewable(rows, l) then rows[l.target := RowOf(l)] else rows
  }

  function AfterRelease(rows: Table, l: Lease): Table {
    if Owns(rows, l) then rows - {l.target} else rows
  }

  /** A granted lease that is released leaves the target free, whoever held the row before. */
  lemma AcquireThenRelease(rows: Table, l: Lease)
    requires Free(rows, l)
    ensures AfterRelease(AfterAcquire(rows, l), l) == rows - {l.target}
  {
  }

  /** An unexpired lease is out of reach of every statement sent for another worker or job by then. */
  lemma UnexpiredIsSafe(rows: Table, l: Lease, other: Lease)
    requires Owns(rows, l) && other.now < rows[l.target].expires
    requires other.worker != l.worker || other.job != l.job
    ensures forall after :: after in {AfterAcquire(rows, other), AfterRenew(rows, other), AfterRelease(rows, other)} ==>
      l.target in after && after[l.target] == rows[l.target]
  {
  }

  /** The lease methods of the PostgreSQL store, each one atomic statement on the table. */
  class LeaseTable {
    var rows: Table

    constructor ()
      ensures rows == map[]
    {
      rows := map[];
    }

    method TryAcquireLease(l: Lease) returns (r: Result<bool, LeaseError>)
      modifies this
      ensures Validate(l).Some? ==> r == Err(Validate(l).value) && rows == old(rows)
      ensures Validate(l).None? ==> r == Ok(Free(old(rows), l)) && rows == AfterAcquire(old(rows), l)
    {
      var invalid := Validate(l);
      if invalid.Some? {
        return Err(invalid.value);
      }
      if l.target in rows {
        var row := rows[l.target];
        if !(row.expires <= l.now || (row.worker == l.worker && row.job == l.job)) {
          return Ok(false);
        }
      }
      rows := rows[l.target := Row(l.worker, l.job, l.expires, l.now)];
      return Ok(true);
    }

    method RenewLease(l: Lease) returns (r: Result<bool, LeaseError>)
      modifies this
      ensures Validate(l).Some? ==> r == Err(Validate(l).value) && rows == old(rows)
      ensures Validate(l).None? ==> r == Ok(Renewable(old(rows), l)) && rows == AfterRenew(old(rows), l)
    {
      var invalid := Validate(l);
      if invalid.Some? {
        return Err(invalid.value);
      }
      if l.target in rows {
        var row := rows[l.target];
        if row.worker == l.worker && row.job == l.job && row.expires > l.now {
          rows := rows[l.target := row.(expires := l.expires, updated := l.now)];
          return Ok(true);
        }
      }
      return Ok(false);
    }

    method ReleaseLease(l: Lease) returns (r: Result<(), LeaseError>)
      modifies this
      ensures r.Ok? <==> l.target != EMPTY && l.worker != EMPTY && l.job != EMPTY
      ensures rows == if r.Ok? then AfterRelease(old(rows), l) else old(rows)
    {
      if l.target == EMPTY {
        return Err(NoTarget);
      } else if l.worker == EMPTY {
        return Err(NoWorker);
      } else if l.job == EMPTY {
        return Err(NoJob);
      }
      if l.target in rows && rows[l.target].worker == l.worker && rows[l.target].job == l.job {
        rows := rows - {l.target};
      }
      return Ok(());
    }
  }
}
