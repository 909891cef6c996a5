/** The reports collection, written by `createReport`: an append-only log of
    who reported what and why. */
module ReportModel {
  import opened Common

  datatype Report = Report(
    id: Oid,
    reporterId: Oid,
    targetType: string,
    targetId: Oid,
    reason: string,
    createdAt: int)

  ghost predicate ReportsValid(t: Table<Oid, Report>) {
    forall id :: id in t.rows ==> t.rows[id].id == id && id.n < t.nextId
  }

  function InsertReport(t: Table<Oid, Report>, reporterId: Oid, targetType: string, targetId: Oid, reason: string, now: int)
    : (Report, Table<Oid, Report>)
  {
    var r := Report(t.Fresh(), reporterId, targetType, targetId, reason, now);
    (r, Table(t.rows[r.id := r], t.nextId + 1))
  }

  class ReportTable {
    var rows: map<Oid, Report>
    var nextId: nat

    function Snap(): Table<Oid, Report>
      reads this
    {
      Table(rows, nextId)
    }

    ghost predicate Valid()
      reads this
    {
      ReportsValid(Snap())
    }

    constructor ()
      ensures Valid() && rows == map[] && nextId == 0
    {
      rows := map[];
      nextId := 0;
    }

    method CreateReport(reporterId: Oid, targetType: string, targetId: Oid, reason: string, now: int) returns (r: Report)
      requires Valid()
      modifies this
      ensures Valid()
      ensures (r, Snap()) == InsertReport(old(Snap()), reporterId, targetType, targetId, reason, now)
    {
      r := Report(Oid(nextId), reporterId, targetType, targetId, reason, now);
      rows := rows[r.id := r];
      nextId := nextId + 1;
    }
  }
}
