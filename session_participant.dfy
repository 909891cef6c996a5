/** The sessionParticipants collection (models/SessionParticipant.js): one
    record per (session, user), unique by that pair, carrying the join status. */
module ParticipantModel {
  import opened Common
  import opened Listing

  datatype ParticipantStatus = Pending | Accepted | Declined

  datatype Participant = Participant(
    sessionId: Oid,
    userId: Oid,
    status: ParticipantStatus,
    createdAt: int,
    updatedAt: int)

  /** The unique index (sessionId, userId). */
  type ParticipantKey = (Oid, Oid)

  /** Every record sits under its own (sessionId, userId). */
  ghost predicate ParticipantsValid(rows: map<ParticipantKey, Participant>) {
    forall k :: k in rows ==> rows[k].sessionId == k.0 && rows[k].userId == k.1
  }

  /** `participantData.status || 'pending'`. */
  function NewParticipant(sessionId: Oid, userId: Oid, status: Option<ParticipantStatus>, now: int): Participant {
    Participant(sessionId, userId, status.GetOr(Pending), now, now)
  }

  /** `createParticipant`: `insertOne`, refused by the unique index when the
      pair already has a record. */
  function InsertParticipant(rows: map<ParticipantKey, Participant>, sessionId: Oid, userId: Oid,
                             status: Option<ParticipantStatus>, now: int): (Inserted<Participant>, map<ParticipantKey, Participant>)
  {
    if (sessionId, userId) in rows then (DuplicateKey, rows)
    else
      var p := NewParticipant(sessionId, userId, status, now);
      (Inserted(p), rows[(sessionId, userId) := p])
  }

  /** `updateParticipantStatus`: `findOneAndUpdate` setting status and updatedAt. */
  function SetStatus(rows: map<ParticipantKey, Participant>, sessionId: Oid, userId: Oid,
                     status: ParticipantStatus, now: int): (Option<Participant>, map<ParticipantKey, Participant>)
  {
    var k := (sessionId, userId);
    if k in rows then
      var p := rows[k].(status := status, updatedAt := now);
      (Some(p), rows[k := p])
    else (None, rows)
  }

  /** `deleteParticipant`: `deleteOne`, reporting whether a record went away. */
  function RemoveParticipant(rows: map<ParticipantKey, Participant>, sessionId: Oid, userId: Oid): (bool, map<ParticipantKey, Participant>) {
    var k := (sessionId, userId);
    (k in rows, rows - {k})
  }

  /** The keys of the records `countDocuments({sessionId, status})` counts. */
  function Matching(rows: map<ParticipantKey, Participant>, sessionId: Oid, status: ParticipantStatus): set<ParticipantKey> {
    set k | k in rows.Keys && rows[k].sessionId == sessionId && rows[k].status == status
  }

  /** `countParticipantsByStatus`. */
  function CountByStatus(rows: map<ParticipantKey, Participant>, sessionId: Oid, status: ParticipantStatus): nat {
    |Matching(rows, sessionId, status)|
  }

  /** Overwriting or adding one record moves each count by at most one: the
      old record leaves its count and the new one joins its own. */
  lemma {:induction false} CountAfterPut(rows: map<ParticipantKey, Participant>, k: ParticipantKey, p: Participant,
                                         sessionId: Oid, status: ParticipantStatus)
    ensures CountByStatus(rows[k := p], sessionId, status) ==
      CountByStatus(rows, sessionId, status)
      - (if k in rows && rows[k].sessionId == sessionId && rows[k].status == status then 1 else 0)
      + (if p.sessionId == sessionId && p.status == status then 1 else 0)
  {
    var a := Matching(rows, sessionId, status);
    var b := Matching(rows[k := p], sessionId, status);
    var rest := a - {k};
    if p.sessionId == sessionId && p.status == status {
      assert b == rest + {k};
    } else {
      assert b == rest;
    }
  }

  /** Removing one record lowers only the count it was in, by one. */
  lemma {:induction false} CountAfterRemove(rows: map<ParticipantKey, Participant>, k: ParticipantKey,
                                            sessionId: Oid, status: ParticipantStatus)
    ensures CountByStatus(rows - {k}, sessionId, status) ==
      CountByStatus(rows, sessionId, status)
      - (if k in rows && rows[k].sessionId == sessionId && rows[k].status == status then 1 else 0)
  {
    var a := Matching(rows, sessionId, status);
    assert Matching(rows - {k}, sessionId, status) == a - {k};
  }

  /** A session none of whose records exist has every count zero. */
  lemma {:induction false} CountOfUnknownSession(rows: map<ParticipantKey, Participant>, sessionId: Oid, status: ParticipantStatus)
    requires forall k :: k in rows ==> rows[k].sessionId != sessionId
    ensures CountByStatus(rows, sessionId, status) == 0
  {
    assert Matching(rows, sessionId, status) == {};
  }

  /** Create, find, update and delete agree on the (sessionId, userId) key: a
      created record is found with its status (pending unless one was given),
      an update changes the status and nothing else the record holds, and
      after a delete nothing is found. */
  lemma {:induction false} KeyedOperationsAgree(rows: map<ParticipantKey, Participant>, s: Oid, u: Oid,
                                                status: Option<ParticipantStatus>, st: ParticipantStatus, now: int)
    requires ParticipantsValid(rows)
    ensures var (r, rows') := InsertParticipant(rows, s, u, status, now);
      ParticipantsValid(rows') &&
      (r.Inserted? <==> (s, u) !in rows) &&
      (r.Inserted? ==> (s, u) in rows' && rows'[(s, u)].status == status.GetOr(Pending)) &&
      (r.DuplicateKey? ==> rows' == rows)
    ensures var (r, rows') := SetStatus(rows, s, u, st, now);
      ParticipantsValid(rows') &&
      (r.Some? <==> (s, u) in rows) &&
      (r.Some? ==> rows'[(s, u)] == rows[(s, u)].(status := st, updatedAt := now)) &&
      (forall k :: k in rows && k != (s, u) ==> k in rows' && rows'[k] == rows[k]) &&
      rows'.Keys == rows.Keys
    ensures var (deleted, rows') := RemoveParticipant(rows, s, u);
      ParticipantsValid(rows') && (deleted <==> (s, u) in rows) && (s, u) !in rows' &&
      (forall k :: k in rows && k != (s, u) ==> k in rows' && rows'[k] == rows[k])
  {
  }

  /** The ids of the users with a record for `sessionId`, each once. */
  ghost predicate ListsSessionUsers(rows: map<ParticipantKey, Participant>, sessionId: Oid, ids: seq<Oid>) {
    && Distinct(ids)
    && (forall u :: u in ids <==> (sessionId, u) in rows)
  }

  class ParticipantTable {
    var rows: map<ParticipantKey, Participant>

    ghost predicate Valid()
      reads this
    {
      ParticipantsValid(rows)
    }

    constructor ()
      ensures Valid() && rows == map[]
    {
      rows := map[];
    }

    method CreateParticipant(sessionId: Oid, userId: Oid, status: Option<ParticipantStatus>, now: int)
      returns (r: Inserted<Participant>)
      requires Valid()
      modifies this
      ensures Valid()
      ensures (r, rows) == InsertParticipant(old(rows), sessionId, userId, status, now)
    {
      if (sessionId, userId) in rows {
        return DuplicateKey;
      }
      var p := NewParticipant(sessionId, userId, status, now);
      rows := rows[(sessionId, userId) := p];
      r := Inserted(p);
    }

    /** `findParticipant`: the record under the key, if any. */
    function FindParticipant(sessionId: Oid, userId: Oid): (r: Option<Participant>)
      reads this
      requires Valid()
      ensures r.Some? <==> (sessionId, userId) in rows
      ensures r.Some? ==> r.value == rows[(sessionId, userId)] && r.value.sessionId == sessionId && r.value.userId == userId
    {
      if (sessionId, userId) in rows then Some(rows[(sessionId, userId)]) else None
    }

    method UpdateParticipantStatus(sessionId: Oid, userId: Oid, status: ParticipantStatus, now: int)
      returns (r: Option<Participant>)
      requires Valid()
      modifies this
      ensures Valid()
      ensures (r, rows) == SetStatus(old(rows), sessionId, userId, status, now)
    {
      if (sessionId, userId) in rows {
        var p := rows[(sessionId, userId)].(status := status, updatedAt := now);
        rows := rows[(sessionId, userId) := p];
        r := Some(p);
      } else {
        r := None;
      }
    }

    method DeleteParticipant(sessionId: Oid, userId: Oid) returns (deleted: bool)
      requires Valid()
      modifies this
      ensures Valid()
      ensures (deleted, rows) == RemoveParticipant(old(rows), sessionId, userId)
    {
      deleted := (sessionId, userId) in rows;
      rows := rows - {(sessionId, userId)};
    }

    function CountParticipantsByStatus(sessionId: Oid, status: ParticipantStatus): (n: nat)
      reads this
      requires Valid()
      ensures n == |set k | k in rows && k.0 == sessionId && rows[k].status == status|
    {
      assert Matching(rows, sessionId, status) == set k | k in rows && k.0 == sessionId && rows[k].status == status;
      CountByStatus(rows, sessionId, status)
    }

    /** `findParticipantsBySessionId(..).map(p => p.userId)`: one id per record
        of the session, in the order the collection hands them out. */
    method SessionUserIds(sessionId: Oid) returns (ids: seq<Oid>)
      requires Valid()
      ensures ListsSessionUsers(rows, sessionId, ids)
    {
      var todo := rows.Keys;
      ids := [];
      while todo != {}
        invariant todo <= rows.Keys
        invariant Distinct(ids)
        invariant forall u :: u in ids ==> (sessionId, u) in rows && (sessionId, u) !in todo
        invariant forall u :: (sessionId, u) in rows ==> u in ids || (sessionId, u) in todo
        decreases |todo|
      {
        var k :| k in todo;
        if k.0 == sessionId {
          ids := ids + [k.1];
        }
        todo := todo - {k};
      }
    }
  }
}
