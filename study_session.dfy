/** The studySessions collection (models/StudySession.js): the record a new
    session starts from, the two update paths, and the filtered, sorted and
    paginated session listing. */
module StudySessionModel {
  import opened Common
  import opened Listing

  datatype SessionStatus = Open | Full | Cancelled

  datatype Session = Session(
    id: Oid,
    createdBy: Oid,
    title: string,
    course: Option<string>,
    vibe: Option<string>,
    timeSlot: Option<string>,
    placeId: Option<string>,
    locationLabel: Option<string>,
    maxPeople: int,
    notes: string,
    isPublic: bool,
    status: SessionStatus,
    participantsCount: int,
    acceptedCount: int,
    createdAt: int,
    updatedAt: int)

  /** The request body fields `createSession` copies; None is a field left out. */
  datatype NewSession = NewSession(
    title: string,
    course: Option<string>,
    vibe: Option<string>,
    timeSlot: Option<string>,
    placeId: Option<string>,
    locationLabel: Option<string>,
    maxPeople: int,
    notes: Option<string>,
    isPublic: Option<bool>)

  /** The fields an `updateSession` call may `$set`; None leaves one alone. */
  datatype SessionPatch = SessionPatch(
    title: Option<string>,
    course: Option<string>,
    notes: Option<string>,
    maxPeople: Option<int>,
    isPublic: Option<bool>,
    status: Option<SessionStatus>)

  /** The `updates` object of `updateSessionCounts`: an undefined entry is
      not written. */
  datatype CountUpdates = CountUpdates(
    participantsCount: Option<int>,
    acceptedCount: Option<int>,
    status: Option<SessionStatus>)

  ghost predicate SessionsValid(t: Table<Oid, Session>) {
    forall id :: id in t.rows ==> t.rows[id].id == id && id.n < t.nextId
  }

  /** The record `createSession` inserts: open, with the creator counted once
      among the participants and once among the accepted. */
  function NewSessionRecord(id: Oid, createdBy: Oid, s: NewSession, now: int): (r: Session)
    ensures r.status == Open && r.participantsCount == 1 && r.acceptedCount == 1
    ensures r.isPublic == s.isPublic.GetOr(true)
    ensures s.notes.None? ==> r.notes == ""
    ensures r.createdBy == createdBy && r.maxPeople == s.maxPeople
  {
    Session(id, createdBy, s.title, s.course, s.vibe, s.timeSlot, s.placeId, s.locationLabel, s.maxPeople,
            s.notes.GetOr(""), s.isPublic.GetOr(true), Open, 1, 1, now, now)
  }

  function InsertSession(t: Table<Oid, Session>, createdBy: Oid, s: NewSession, now: int): (Session, Table<Oid, Session>) {
    var r := NewSessionRecord(t.Fresh(), createdBy, s, now);
    (r, Table(t.rows[r.id := r], t.nextId + 1))
  }

  function ApplySessionPatch(s: Session, p: SessionPatch, now: int): Session {
    s.(title := p.title.GetOr(s.title),
       course := if p.course.Some? then p.course else s.course,
       notes := p.notes.GetOr(s.notes),
       maxPeople := p.maxPeople.GetOr(s.maxPeople),
       isPublic := p.isPublic.GetOr(s.isPublic),
       status := p.status.GetOr(s.status),
       updatedAt := now)
  }

  /** `updateSession`: `findOneAndUpdate` with `$set`, returning the new record. */
  function PatchSession(t: Table<Oid, Session>, id: Oid, p: SessionPatch, now: int): (Option<Session>, Table<Oid, Session>) {
    if id in t.rows then
      var s := ApplySessionPatch(t.rows[id], p, now);
      (Some(s), t.(rows := t.rows[id := s]))
    else (None, t)
  }

  function ApplyCounts(s: Session, u: CountUpdates, now: int): Session {
    s.(participantsCount := u.participantsCount.GetOr(s.participantsCount),
       acceptedCount := u.acceptedCount.GetOr(s.acceptedCount),
       status := u.status.GetOr(s.status),
       updatedAt := now)
  }

  /** `updateSessionCounts`: `updateOne` with the defined entries. */
  function SetCounts(t: Table<Oid, Session>, id: Oid, u: CountUpdates, now: int): Table<Oid, Session> {
    if id in t.rows then t.(rows := t.rows[id := ApplyCounts(t.rows[id], u, now)]) else t
  }

  /** Counter updates replace the one stored session by its updated copy. */
  lemma SetCountsRows(t: Table<Oid, Session>, id: Oid, u: CountUpdates, now: int)
    requires id in t.rows
    ensures SetCounts(t, id, u, now).rows == t.rows[id := ApplyCounts(t.rows[id], u, now)]
  {
  }

  /** Each defined entry of `updates` is written, each undefined one leaves its
      field as it was, and every other field of the record but updatedAt is
      untouched; other sessions are untouched. */
  lemma {:induction false} SetCountsWritesOnlyDefined(t: Table<Oid, Session>, id: Oid, u: CountUpdates, now: int)
    requires id in t.rows
    ensures var s := t.rows[id];
      var s' := SetCounts(t, id, u, now).rows[id];
      && s'.participantsCount == (if u.participantsCount.Some? then u.participantsCount.value else s.participantsCount)
      && s'.acceptedCount == (if u.acceptedCount.Some? then u.acceptedCount.value else s.acceptedCount)
      && s'.status == (if u.status.Some? then u.status.value else s.status)
      && s'.(participantsCount := s.participantsCount, acceptedCount := s.acceptedCount,
             status := s.status, updatedAt := s.updatedAt) == s
    ensures forall other :: other in t.rows && other != id ==> SetCounts(t, id, u, now).rows[other] == t.rows[other]
    ensures SetCounts(t, id, u, now).rows.Keys == t.rows.Keys
  {
  }

  /** `updateSession` writes exactly the supplied fields (and updatedAt). */
  lemma {:induction false} PatchSessionWritesOnlySupplied(t: Table<Oid, Session>, id: Oid, p: SessionPatch, now: int)
    requires id in t.rows
    ensures var (r, t') := PatchSession(t, id, p, now);
      var s := t.rows[id];
      && r == Some(t'.rows[id])
      && (p.status.Some? ==> r.value.status == p.status.value)
      && (p.status.None? ==> r.value.status == s.status)
      && r.value.(title := s.title, course := s.course, notes := s.notes, maxPeople := s.maxPeople,
                  isPublic := s.isPublic, status := s.status, updatedAt := s.updatedAt) == s
      && r.value.updatedAt == now
      && (forall other :: other in t.rows && other != id ==> t'.rows[other] == t.rows[other])
  {
  }

  // ---------------------------------------------------------------------------
  // findSessions

  /** The query-string filters of `findSessions`; None is an absent parameter. */
  datatype SessionFilters = SessionFilters(
    public: Option<string>,
    course: Option<string>,
    placeId: Option<string>,
    district: Option<string>)

  /** `sort`, `page` and `limit` as `findSessions` receives them: the page and
      limit are the results of `parseInt` (None when it gives NaN). */
  datatype ListOptions = ListOptions(sort: string, page: Option<int>, limit: Option<int>)

  datatype SessionPage = SessionPage(sessions: seq<Session>, page: int, limit: int, total: nat)

  predicate Truthy(s: Option<string>) {
    s.Some? && s.value != ""
  }

  /** Does `s` satisfy the query `findSessions` builds from `f`? `matches(p, v)`
      is a case-insensitive regular-expression test of `v` against `p`. */
  predicate SessionMatches(s: Session, f: SessionFilters, matches: (string, string) -> bool) {
    && (f.public == Some("true") ==> s.isPublic)
    && (Truthy(f.course) ==> s.course.Some? && matches(f.course.value, s.course.value))
    && (Truthy(f.placeId) ==> s.placeId == f.placeId)
    && (Truthy(f.district) ==> s.locationLabel.Some? && matches(f.district.value, s.locationLabel.value))
  }

  /** The sort key: participantsCount for 'popular', createdAt otherwise. */
  function SessionSortKey(sort: string): Session -> int {
    if sort == "popular" then (s: Session) => s.participantsCount else (s: Session) => s.createdAt
  }

  ghost function MatchingSessions(rows: map<Oid, Session>, f: SessionFilters, matches: (string, string) -> bool): set<Session> {
    set s | s in rows.Values && SessionMatches(s, f, matches)
  }

  /** `findSessions`: one page of the matching sessions, largest key first,
      and the number of all matching sessions. None is the store refusing a
      negative skip. */
  ghost function FindSessions(rows: map<Oid, Session>, f: SessionFilters, o: ListOptions,
                              matches: (string, string) -> bool): (r: Option<SessionPage>)
    ensures var page := PageParam(o.page, 1);
      var limit := PageParam(o.limit, 20);
      && (r.None? <==> Skip(page, limit) < 0)
      && (r.Some? ==>
            && r.value.page == page && r.value.limit == limit
            && r.value.total == |MatchingSessions(rows, f, matches)|
            && r.value.sessions == Window(Ordered(MatchingSessions(rows, f, matches), SessionSortKey(o.sort)),
                                          Skip(page, limit), limit).value
            && SortedDesc(r.value.sessions, SessionSortKey(o.sort))
            && (forall i :: 0 <= i < |r.value.sessions| ==>
                  r.value.sessions[i] in rows.Values && SessionMatches(r.value.sessions[i], f, matches))
            && (limit > 0 ==> |r.value.sessions| <= limit))
  {
    var page := PageParam(o.page, 1);
    var limit := PageParam(o.limit, 20);
    var hits := MatchingSessions(rows, f, matches);
    var ordered := Ordered(hits, SessionSortKey(o.sort));
    if Skip(page, limit) < 0 then None
    else
      var w := Window(ordered, Skip(page, limit), limit).value;
      PageOfOrdered(hits, SessionSortKey(o.sort), Skip(page, limit), limit);
      assert forall i :: 0 <= i < |w| ==> w[i] in hits;
      Some(SessionPage(w, page, limit, |hits|))
  }

  /** With a positive limit every matching session is listed, on exactly one
      page. */
  lemma FindSessionsListsEachOnce(rows: map<Oid, Session>, f: SessionFilters, sort: string, limit: int,
                                  matches: (string, string) -> bool, x: Session, q: int)
    requires limit >= 1
    requires x in rows.Values && SessionMatches(x, f, matches)
    requires q >= 1
    ensures FindSessions(rows, f, ListOptions(sort, Some(q), Some(limit)), matches).Some?
    ensures x in FindSessions(rows, f, ListOptions(sort, Some(q), Some(limit)), matches).value.sessions
      <==> q == PageNumber(Ordered(MatchingSessions(rows, f, matches), SessionSortKey(sort)), limit, x)
  {
    assert PageParam(Some(q), 1) == q && PageParam(Some(limit), 20) == limit;
    MulMono(0, q - 1, limit);
    PageHoldsOnce(MatchingSessions(rows, f, matches), SessionSortKey(sort), limit, q, x, FindSessions(rows, f, ListOptions(sort, Some(q), Some(limit)), matches).value.sessions);
  }

  class SessionTable {
    var rows: map<Oid, Session>
    var nextId: nat

    function Snap(): Table<Oid, Session>
      reads this
    {
      Table(rows, nextId)
    }

    ghost predicate Valid()
      reads this
    {
      SessionsValid(Snap())
    }

    constructor ()
      ensures Valid() && rows == map[] && nextId == 0
    {
      rows := map[];
      nextId := 0;
    }

    /** `createSession`: insert the new record under a fresh id. */
    method CreateSession(createdBy: Oid, s: NewSession, now: int) returns (r: Session)
      requires Valid()
      modifies this
      ensures Valid()
      ensures (r, Snap()) == InsertSession(old(Snap()), createdBy, s, now)
      ensures old(nextId) == r.id.n && r.id !in old(rows)
    {
      r := NewSessionRecord(Oid(nextId), createdBy, s, now);
      rows := rows[r.id := r];
      nextId := nextId + 1;
    }

    function FindSessionById(id: Oid): (r: Option<Session>)
      reads this
      requires Valid()
      ensures r.Some? <==> id in rows
      ensures r.Some? ==> r.value == rows[id] && r.value.id == id
    {
      if id in rows then Some(rows[id]) else None
    }

    method UpdateSession(id: Oid, p: SessionPatch, now: int) returns (r: Option<Session>)
      requires Valid()
      modifies this
      ensures Valid()
      ensures (r, Snap()) == PatchSession(old(Snap()), id, p, now)
    {
      if id in rows {
        var s := ApplySessionPatch(rows[id], p, now);
        rows := rows[id := s];
        r := Some(s);
      } else {
        r := None;
      }
    }

    /** `updateSessionCounts`: build `setUpdates` from the defined entries of
        `u`, then write it. */
    method UpdateSessionCounts(id: Oid, u: CountUpdates, now: int)
      requires Valid()
      modifies this
      ensures Valid()
      ensures Snap() == SetCounts(old(Snap()), id, u, now)
    {
      if id in rows {
        var s := rows[id].(updatedAt := now);
        if u.participantsCount.Some? {
          s := s.(participantsCount := u.participantsCount.value);
        }
        if u.acceptedCount.Some? {
          s := s.(acceptedCount := u.acceptedCount.value);
        }
        if u.status.Some? {
          s := s.(status := u.status.value);
        }
        rows := rows[id := s];
      }
    }
  }
}
