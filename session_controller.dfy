/** The study-session handlers (controllers/sessionController.js): creating a
    session, the join / accept / decline / leave state machine with its two
    denormalised counters, cancelling, saving and inviting.

    Each handler is a method over the tables it touches, specified by a step
    function from those collections before the request to the outcome and
    the collections after. The sessions and their participant records travel
    together as a `Roster`, the value the counter invariant is about. For
    accept, decline and leave the handlers follow the corrected steps; the
    steps as the source writes them are kept beside them, with lemmas showing
    where they break the counters. */
module SessionController {
  import opened Common
  import opened Listing
  import opened UserModel
  import opened StudySessionModel
  import opened ParticipantModel
  import N = NotificationModel
  import E = EdgeModel
  import F = FriendModel

  /** The sessions and their participant records. */
  datatype Roster = Roster(sessions: Table<Oid, Session>, participants: map<ParticipantKey, Participant>)


  // ---------------------------------------------------------------------------
  // Notifications the handlers send

  function JoinNotice(s: Session, me: Oid, myName: string): N.NewNotification {
    N.NewNotification(s.createdBy, N.SessionRequest, "New join request",
                      Some(myName + " wants to join your study session"),
                      Some(map["sessionId" := s.id, "fromUserId" := me]))
  }

  function AcceptNotice(s: Session, u: Oid): N.NewNotification {
    N.NewNotification(u, N.SessionAccepted, "Join request accepted",
                      Some("Your request to join \"" + s.title + "\" was accepted"),
                      Some(map["sessionId" := s.id]))
  }

  function CancelNotice(s: Session): Oid -> N.NewNotification {
    u => N.NewNotification(u, N.SessionCancelled, "Study session cancelled",
                           Some("\"" + s.title + "\" has been cancelled"),
                           Some(map["sessionId" := s.id]))
  }

  function InviteNotice(s: Session, me: Oid, myName: string, friendId: Oid): N.NewNotification {
    N.NewNotification(friendId, N.SessionInvite, "Study session invitation",
                      Some(myName + " invited you to \"" + s.title + "\""),
                      Some(map["sessionId" := s.id, "fromUserId" := me]))
  }

  // ---------------------------------------------------------------------------
  // The steps

  const SessionNotFound := Fail(404, "SESSION_NOT_FOUND")
  const Forbidden := Fail(403, "FORBIDDEN")
  const ParticipantNotFound := Fail(404, "PARTICIPANT_NOT_FOUND")
  const InvalidStatus := Fail(400, "INVALID_STATUS")
  const NotAvailable := Fail(400, "SESSION_NOT_AVAILABLE")
  const CancelPatch := SessionPatch(None, None, None, None, None, Some(Cancelled))

  /** `createSession`: insert the session, the creator as an accepted
      participant, and count the session in the creator's stats. */
  function CreateSessionStep(r: Roster, users: Table<Oid, User>, me: Oid, body: NewSession, now: int)
    : (Outcome, Roster, Table<Oid, User>)
  {
    var (s, sessions') := InsertSession(r.sessions, me, body, now);
    var (ins, participants') := InsertParticipant(r.participants, s.id, me, Some(Accepted), now);
    if ins.DuplicateKey? then (DuplicateKeyReply, r.(sessions := sessions'), users)
    else (Ok(201), Roster(sessions', participants'), IncrementStat(users, me, SessionsCreated, 1, now))
  }

  /** What join writes once its guards pass: a pending record and one more
      participant. */
  function JoinWrites(r: Roster, s: Session, me: Oid, now: int): Roster {
    Roster(SetCounts(r.sessions, s.id, CountUpdates(Some(s.participantsCount + 1), None, None), now),
           InsertParticipant(r.participants, s.id, me, Some(Pending), now).1)
  }

  /** `joinSession`: refused for a missing, full or cancelled session and for
      a caller who has a record already; the creator is told. */
  function JoinStep(r: Roster, notes: N.Notes, me: Oid, myName: string, sid: Oid, now: int): (Outcome, Roster, N.Notes) {
    if sid !in r.sessions.rows then (SessionNotFound, r, notes)
    else
      var s := r.sessions.rows[sid];
      if s.status == Full || s.status == Cancelled then (NotAvailable, r, notes)
      else if (sid, me) in r.participants then (Fail(409, "ALREADY_JOINED"), r, notes)
      else (Ok(200), JoinWrites(r, s, me, now), N.InsertNotification(notes, JoinNotice(s, me, myName), now))
  }

  /** What accept writes once its guards pass: the record becomes accepted,
      acceptedCount goes up by one, and the session turns full when the new
      count reaches maxPeople. */
  function AcceptWrites(r: Roster, s: Session, u: Oid, now: int): Roster {
    var n := s.acceptedCount + 1;
    Roster(SetCounts(r.sessions, s.id, CountUpdates(None, Some(n), if n >= s.maxPeople then Some(Full) else None), now),
           SetStatus(r.participants, s.id, u, Accepted, now).1)
  }

  /** `acceptParticipant` as the source writes it: no look at the session's
      status or capacity. */
  function AcceptStepAsWritten(r: Roster, notes: N.Notes, me: Oid, sid: Oid, u: Oid, now: int): (Outcome, Roster, N.Notes) {
    if sid !in r.sessions.rows then (SessionNotFound, r, notes)
    else
      var s := r.sessions.rows[sid];
      if s.createdBy != me then (Forbidden, r, notes)
      else if (sid, u) !in r.participants then (ParticipantNotFound, r, notes)
      else if r.participants[(sid, u)].status != Pending then (InvalidStatus, r, notes)
      else (Ok(200), AcceptWrites(r, s, u, now), N.InsertNotification(notes, AcceptNotice(s, u), now))
  }

  /** `acceptParticipant`, corrected: a session that is not open, or already
      has maxPeople accepted, takes no one more (SESSION_NOT_AVAILABLE, as
      join answers). */
  function AcceptStep(r: Roster, notes: N.Notes, me: Oid, sid: Oid, u: Oid, now: int): (Outcome, Roster, N.Notes) {
    if sid !in r.sessions.rows then (SessionNotFound, r, notes)
    else
      var s := r.sessions.rows[sid];
      if s.createdBy != me then (Forbidden, r, notes)
      else if (sid, u) !in r.participants then (ParticipantNotFound, r, notes)
      else if r.participants[(sid, u)].status != Pending then (InvalidStatus, r, notes)
      else if s.status != Open || s.acceptedCount >= s.maxPeople then (NotAvailable, r, notes)
      else (Ok(200), AcceptWrites(r, s, u, now), N.InsertNotification(notes, AcceptNotice(s, u), now))
  }

  /** What decline writes: the record becomes declined and participantsCount
      goes down by one. */
  function DeclineWrites(r: Roster, s: Session, u: Oid, now: int): Roster {
    Roster(SetCounts(r.sessions, s.id, CountUpdates(Some(s.participantsCount - 1), None, None), now),
           SetStatus(r.participants, s.id, u, Declined, now).1)
  }

  /** `declineParticipant` as the source writes it: any record is declined,
      whatever its status. */
  function DeclineStepAsWritten(r: Roster, me: Oid, sid: Oid, u: Oid, now: int): (Outcome, Roster) {
    if sid !in r.sessions.rows then (SessionNotFound, r)
    else
      var s := r.sessions.rows[sid];
      if s.createdBy != me then (Forbidden, r)
      else if (sid, u) !in r.participants then (ParticipantNotFound, r)
      else (Ok(200), DeclineWrites(r, s, u, now))
  }

  /** `declineParticipant`, corrected: only a pending request is declined;
      any other record answers INVALID_STATUS, as accept does. */
  function DeclineStep(r: Roster, me: Oid, sid: Oid, u: Oid, now: int): (Outcome, Roster) {
    if sid !in r.sessions.rows then (SessionNotFound, r)
    else
      var s := r.sessions.rows[sid];
      if s.createdBy != me then (Forbidden, r)
      else if (sid, u) !in r.participants then (ParticipantNotFound, r)
      else if r.participants[(sid, u)].status != Pending then (InvalidStatus, r)
      else (Ok(200), DeclineWrites(r, s, u, now))
  }

  /** The counter updates leave sends for a leaver with status `status`; the
      corrected form leaves participantsCount alone for a declined record. */
  function LeaveUpdates(s: Session, status: ParticipantStatus, corrected: bool): CountUpdates {
    var accepted := status == Accepted;
    CountUpdates(
      if corrected && status == Declined then None else Some(s.participantsCount - 1),
      if accepted then Some(s.acceptedCount - 1) else None,
      if accepted && s.status == Full then Some(Open) else None)
  }

  function LeaveSteps(r: Roster, me: Oid, sid: Oid, now: int, corrected: bool): (Outcome, Roster) {
    if sid !in r.sessions.rows then (SessionNotFound, r)
    else
      var s := r.sessions.rows[sid];
      if s.createdBy == me then (Fail(400, "CREATOR_CANNOT_LEAVE"), r)
      else if (sid, me) !in r.participants then (Fail(404, "NOT_A_PARTICIPANT"), r)
      else
        var p := r.participants[(sid, me)];
        (Ok(200), Roster(SetCounts(r.sessions, sid, LeaveUpdates(s, p.status, corrected), now),
                         RemoveParticipant(r.participants, sid, me).1))
  }

  /** `leaveSession` as the source writes it. */
  function LeaveStepAsWritten(r: Roster, me: Oid, sid: Oid, now: int): (Outcome, Roster) {
    LeaveSteps(r, me, sid, now, false)
  }

  /** `leaveSession`, corrected: a declined record was already taken out of
      participantsCount when it was declined. */
  function LeaveStep(r: Roster, me: Oid, sid: Oid, now: int): (Outcome, Roster) {
    LeaveSteps(r, me, sid, now, true)
  }

  /** The users `cancelSession` notifies: every user with a record for the
      session except the creator, each once, in the order `to` gives. */
  ghost predicate CancelRecipients(r: Roster, sid: Oid, creator: Oid, to: seq<Oid>) {
    && Distinct(to)
    && (forall u :: u in to <==> (sid, u) in r.participants && u != creator)
  }

  /** `cancelSession`: creator only; status cancelled, then one notification
      per recipient in `to`. */
  function CancelStep(r: Roster, notes: N.Notes, me: Oid, sid: Oid, to: seq<Oid>, now: int): (Outcome, Roster, N.Notes) {
    if sid !in r.sessions.rows then (SessionNotFound, r, notes)
    else
      var s := r.sessions.rows[sid];
      if s.createdBy != me then (Forbidden, r, notes)
      else (Ok(200), r.(sessions := PatchSession(r.sessions, sid, CancelPatch, now).1),
            N.InsertEach(notes, to, CancelNotice(s), now))
  }

  function SessionEdge(me: Oid, sid: Oid): E.EdgeKey {
    E.EdgeKey(me, E.SessionType, E.ObjectKey(sid))
  }

  /** `saveSession`. */
  function SaveSessionStep(sessions: Table<Oid, Session>, saved: map<E.EdgeKey, E.Edge>, me: Oid, sid: Oid, now: int)
    : (Outcome, map<E.EdgeKey, E.Edge>)
  {
    if sid !in sessions.rows then (SessionNotFound, saved)
    else if SessionEdge(me, sid) in saved then (Fail(409, "ALREADY_SAVED"), saved)
    else (Ok(200), E.InsertEdge(saved, SessionEdge(me, sid), now).1)
  }

  /** `unsaveSession`: no look at the session itself. */
  function UnsaveSessionStep(saved: map<E.EdgeKey, E.Edge>, me: Oid, sid: Oid): (Outcome, map<E.EdgeKey, E.Edge>) {
    var (deleted, saved') := E.RemoveEdge(saved, SessionEdge(me, sid));
    if !deleted then (Fail(404, "SAVED_NOT_FOUND"), saved)
    else (Ok(200), saved')
  }

  /** `inviteFriend`: creator only, friends only, one notification. */
  function InviteStep(sessions: Table<Oid, Session>, friends: map<F.FriendKey, F.Friendship>, notes: N.Notes,
                      me: Oid, myName: string, sid: Oid, friendId: Oid, now: int): (Outcome, N.Notes)
  {
    if sid !in sessions.rows then (SessionNotFound, notes)
    else
      var s := sessions.rows[sid];
      if s.createdBy != me then (Forbidden, notes)
      else if !F.AreFriends(friends, me, friendId) then (Fail(400, "NOT_FRIENDS"), notes)
      else (Ok(200), N.InsertNotification(notes, InviteNotice(s, me, myName, friendId), now))
  }

  // ---------------------------------------------------------------------------
  // The invariant of the participation state machine

  /** The counters of `s` agree with its participant records. */
  ghost predicate CountsMatch(rows: map<ParticipantKey, Participant>, s: Session) {
    && s.participantsCount == CountByStatus(rows, s.id, Pending) + CountByStatus(rows, s.id, Accepted)
    && s.acceptedCount == CountByStatus(rows, s.id, Accepted)
  }

  /** No more accepted than maxPeople, and a live session is full exactly
      when it has maxPeople accepted. */
  ghost predicate WithinCapacity(s: Session) {
    && s.acceptedCount <= s.maxPeople
    && (s.status != Cancelled ==> (s.status == Full <==> s.acceptedCount >= s.maxPeople))
  }

  /** Every record names a session id already handed out, and every session's counters
      agree with its records and respect its capacity. */
  ghost predicate RosterValid(r: Roster) {
    && SessionsValid(r.sessions)
    && ParticipantsValid(r.participants)
    && (forall k :: k in r.participants ==> k.0.n < r.sessions.nextId)
    && (forall id :: id in r.sessions.rows ==> CountsMatch(r.participants, r.sessions.rows[id]))
    && (forall id :: id in r.sessions.rows ==> WithinCapacity(r.sessions.rows[id]))
  }

  /** Rewriting the counters of one stored session and putting one of its
      records keeps the invariant, provided that session's own counters
      still agree. */
  lemma {:induction false} PutKeepsInvariant(r: Roster, r': Roster, sid: Oid, u: CountUpdates, now: int, k: ParticipantKey, p: Participant)
    requires RosterValid(r)
    requires sid in r.sessions.rows && k.0 == sid && p.sessionId == sid && p.userId == k.1
    requires CountsMatch(r.participants[k := p], ApplyCounts(r.sessions.rows[sid], u, now))
    requires WithinCapacity(ApplyCounts(r.sessions.rows[sid], u, now))
    requires r'.sessions == SetCounts(r.sessions, sid, u, now) && r'.participants == r.participants[k := p]
    ensures RosterValid(r')
  {
    SetCountsRows(r.sessions, sid, u, now);
    forall id | id in r'.sessions.rows ensures CountsMatch(r'.participants, r'.sessions.rows[id]) {
      if id != sid {
        CountAfterPut(r.participants, k, p, id, Pending);
        CountAfterPut(r.participants, k, p, id, Accepted);
      }
    }
    assert SessionsValid(r'.sessions);
    assert ParticipantsValid(r'.participants);
    assert forall k :: k in r'.participants ==> k.0.n < r'.sessions.nextId;
    assert forall id :: id in r'.sessions.rows ==> WithinCapacity(r'.sessions.rows[id]);
  }

  /** Rewriting the counters of one stored session and removing one of its
      records keeps the invariant, provided that session's own counters
      still agree. */
  lemma {:induction false} RemoveKeepsInvariant(r: Roster, r': Roster, sid: Oid, u: CountUpdates, now: int, k: ParticipantKey)
    requires RosterValid(r)
    requires sid in r.sessions.rows && k.0 == sid
    requires CountsMatch(r.participants - {k}, ApplyCounts(r.sessions.rows[sid], u, now))
    requires WithinCapacity(ApplyCounts(r.sessions.rows[sid], u, now))
    requires r'.sessions == SetCounts(r.sessions, sid, u, now) && r'.participants == r.participants - {k}
    ensures RosterValid(r')
  {
    SetCountsRows(r.sessions, sid, u, now);
    forall id | id in r'.sessions.rows ensures CountsMatch(r'.participants, r'.sessions.rows[id]) {
      if id != sid {
        CountAfterRemove(r.participants, k, id, Pending);
        CountAfterRemove(r.participants, k, id, Accepted);
      }
    }
    assert SessionsValid(r'.sessions);
    assert ParticipantsValid(r'.participants);
    assert forall k :: k in r'.participants ==> k.0.n < r'.sessions.nextId;
    assert forall id :: id in r'.sessions.rows ==> WithinCapacity(r'.sessions.rows[id]);
  }

  /** A new session has no records but its creator's, accepted: one
      participant, one accepted, open because maxPeople is at least 2. */
  lemma {:induction false} CreateSessionKeepsInvariant(r: Roster, users: Table<Oid, User>, me: Oid, body: NewSession, now: int)
    requires RosterValid(r)
    requires body.maxPeople >= 2
    ensures var (o, r', _) := CreateSessionStep(r, users, me, body, now);
      o == Ok(201) && RosterValid(r')
  {
    var sid := r.sessions.Fresh();
    assert sid !in r.sessions.rows;
    assert (sid, me) !in r.participants;
    var s := NewSessionRecord(sid, me, body, now);
    var p := NewParticipant(sid, me, Some(Accepted), now);
    var r' := CreateSessionStep(r, users, me, body, now).1;
    assert r' == Roster(Table(r.sessions.rows[sid := s], r.sessions.nextId + 1), r.participants[(sid, me) := p]);
    CreateKeepsCounts(r, me, body, now);
    assert SessionsValid(r'.sessions);
    assert ParticipantsValid(r'.participants);
    assert forall k :: k in r'.participants ==> k.0.n < r'.sessions.nextId;
    assert forall id :: id in r'.sessions.rows ==> WithinCapacity(r'.sessions.rows[id]);
  }

  /** The counters of every session, the new one included, still agree with
      the records once the creator's accepted record is added. */
  lemma CreateKeepsCounts(r: Roster, me: Oid, body: NewSession, now: int)
    requires RosterValid(r)
    ensures var sid := r.sessions.Fresh();
      var rows := r.sessions.rows[sid := NewSessionRecord(sid, me, body, now)];
      var parts := r.participants[(sid, me) := NewParticipant(sid, me, Some(Accepted), now)];
      forall id :: id in rows ==> CountsMatch(parts, rows[id])
  {
    var sid := r.sessions.Fresh();
    var rows := r.sessions.rows[sid := NewSessionRecord(sid, me, body, now)];
    var p := NewParticipant(sid, me, Some(Accepted), now);
    forall id | id in rows ensures CountsMatch(r.participants[(sid, me) := p], rows[id]) {
      CountAfterPut(r.participants, (sid, me), p, id, Pending);
      CountAfterPut(r.participants, (sid, me), p, id, Accepted);
      if id == sid {
        CountOfUnknownSession(r.participants, sid, Pending);
        CountOfUnknownSession(r.participants, sid, Accepted);
      }
    }
  }

  /** Under the invariant, create stores the new session under a fresh id
      and the creator's accepted record beside it, and counts one more
      created session in the creator's stats. */
  lemma {:induction false} CreateSessionEffects(r: Roster, users: Table<Oid, User>, me: Oid, body: NewSession, now: int)
    requires RosterValid(r)
    ensures var (o, r', users') := CreateSessionStep(r, users, me, body, now);
      var sid := r.sessions.Fresh();
      && o == Ok(201)
      && sid !in r.sessions.rows
      && r'.sessions.rows == r.sessions.rows[sid := NewSessionRecord(sid, me, body, now)]
      && r'.participants == r.participants[(sid, me) := NewParticipant(sid, me, Some(Accepted), now)]
      && (me in users.rows ==>
            StatValue(users'.rows[me].stats, SessionsCreated) == StatValue(users.rows[me].stats, SessionsCreated) + 1)
  {
    var sid := r.sessions.Fresh();
    assert sid !in r.sessions.rows;
    assert (sid, me) !in r.participants;
    if me in users.rows {
      AddToStatMovesOneCounter(users.rows[me].stats, SessionsCreated, 1, SessionsCreated);
    }
  }

  lemma {:induction false} JoinWritesKeepInvariant(r: Roster, s: Session, me: Oid, now: int)
    requires RosterValid(r)
    requires s.id in r.sessions.rows && r.sessions.rows[s.id] == s && s.status == Open && (s.id, me) !in r.participants
    ensures RosterValid(JoinWrites(r, s, me, now))
  {
    var p := NewParticipant(s.id, me, Some(Pending), now);
    var u := CountUpdates(Some(s.participantsCount + 1), None, None);
    JoinPutFacts(r, s, me, now);
    PutKeepsInvariant(r, JoinWrites(r, s, me, now), s.id, u, now, (s.id, me), p);
  }

  lemma {:induction false} JoinPutFacts(r: Roster, s: Session, me: Oid, now: int)
    requires RosterValid(r)
    requires s.id in r.sessions.rows && r.sessions.rows[s.id] == s && s.status == Open && (s.id, me) !in r.participants
    ensures CountsMatch(r.participants[(s.id, me) := NewParticipant(s.id, me, Some(Pending), now)],
                        ApplyCounts(s, CountUpdates(Some(s.participantsCount + 1), None, None), now))
    ensures WithinCapacity(ApplyCounts(s, CountUpdates(Some(s.participantsCount + 1), None, None), now))
  {
    var p := NewParticipant(s.id, me, Some(Pending), now);
    CountAfterPut(r.participants, (s.id, me), p, s.id, Pending);
    CountAfterPut(r.participants, (s.id, me), p, s.id, Accepted);
  }

  /** Join keeps the invariant: it only ever adds a pending record to an
      open session together with one more participant. */
  lemma {:induction false} JoinKeepsInvariant(r: Roster, notes: N.Notes, me: Oid, myName: string, sid: Oid, now: int)
    requires RosterValid(r)
    ensures RosterValid(JoinStep(r, notes, me, myName, sid, now).1)
  {
    if sid in r.sessions.rows && r.sessions.rows[sid].status == Open && (sid, me) !in r.participants {
      var s := r.sessions.rows[sid];
      assert s.id == sid;
      JoinWritesKeepInvariant(r, s, me, now);
    }
  }

  /** Under the invariant a session that is not open refuses every join,
      changing nothing; an open one takes anyone without a record, as one
      more pending participant, and the creator is told. */
  lemma {:induction false} JoinEffects(r: Roster, notes: N.Notes, me: Oid, myName: string, sid: Oid, now: int)
    requires RosterValid(r)
    ensures var (o, r', notes') := JoinStep(r, notes, me, myName, sid, now);
      && (o.Ok? <==> sid in r.sessions.rows && r.sessions.rows[sid].status == Open && (sid, me) !in r.participants)
      && (!o.Ok? ==> r' == r && notes' == notes)
      && (sid in r.sessions.rows && r.sessions.rows[sid].status != Open ==> o == Fail(400, "SESSION_NOT_AVAILABLE"))
      && (o.Ok? ==> && r'.participants == r.participants[(sid, me) := NewParticipant(sid, me, Some(Pending), now)]
                    && r'.sessions.rows[sid].participantsCount == r.sessions.rows[sid].participantsCount + 1
                    && r'.sessions.rows[sid].acceptedCount == r.sessions.rows[sid].acceptedCount
                    && notes'.rows[notes.Fresh()].userId == r.sessions.rows[sid].createdBy)
  {
  }

  lemma {:induction false} AcceptWritesKeepInvariant(r: Roster, s: Session, u: Oid, now: int)
    requires RosterValid(r)
    requires s.id in r.sessions.rows && r.sessions.rows[s.id] == s && s.status == Open
    requires (s.id, u) in r.participants && r.participants[(s.id, u)].status == Pending
    ensures RosterValid(AcceptWrites(r, s, u, now))
  {
    var n := s.acceptedCount + 1;
    var p := r.participants[(s.id, u)].(status := Accepted, updatedAt := now);
    var cu := CountUpdates(None, Some(n), if n >= s.maxPeople then Some(Full) else None);
    AcceptPutFacts(r, s, u, now);
    PutKeepsInvariant(r, AcceptWrites(r, s, u, now), s.id, cu, now, (s.id, u), p);
  }

  lemma {:induction false} AcceptPutFacts(r: Roster, s: Session, u: Oid, now: int)
    requires RosterValid(r)
    requires s.id in r.sessions.rows && r.sessions.rows[s.id] == s && s.status == Open
    requires (s.id, u) in r.participants && r.participants[(s.id, u)].status == Pending
    ensures var n := s.acceptedCount + 1;
      var s' := ApplyCounts(s, CountUpdates(None, Some(n), if n >= s.maxPeople then Some(Full) else None), now);
      CountsMatch(r.participants[(s.id, u) := r.participants[(s.id, u)].(status := Accepted, updatedAt := now)], s') &&
      WithinCapacity(s')
  {
    var p := r.participants[(s.id, u)].(status := Accepted, updatedAt := now);
    CountAfterPut(r.participants, (s.id, u), p, s.id, Pending);
    CountAfterPut(r.participants, (s.id, u), p, s.id, Accepted);
  }

  /** The corrected accept keeps the invariant: it only ever moves a pending
      record of an open session below capacity to accepted. */
  lemma {:induction false} AcceptKeepsInvariant(r: Roster, notes: N.Notes, me: Oid, sid: Oid, u: Oid, now: int)
    requires RosterValid(r)
    ensures RosterValid(AcceptStep(r, notes, me, sid, u, now).1)
  {
    if && sid in r.sessions.rows && r.sessions.rows[sid].createdBy == me
       && (sid, u) in r.participants && r.participants[(sid, u)].status == Pending
       && r.sessions.rows[sid].status == Open
    {
      var s := r.sessions.rows[sid];
      assert s.id == sid;
      AcceptWritesKeepInvariant(r, s, u, now);
    }
  }

  /** Under the invariant the corrected accept succeeds exactly for the
      creator, a pending record and an open session; it makes the record
      accepted, counts one more accepted member, turns the session full
      exactly when that reaches maxPeople, and tells the accepted user. */
  lemma {:induction false} AcceptEffects(r: Roster, notes: N.Notes, me: Oid, sid: Oid, u: Oid, now: int)
    requires RosterValid(r)
    ensures var (o, r', notes') := AcceptStep(r, notes, me, sid, u, now);
      && (o.Ok? <==> && sid in r.sessions.rows && r.sessions.rows[sid].createdBy == me
                     && (sid, u) in r.participants && r.participants[(sid, u)].status == Pending
                     && r.sessions.rows[sid].status == Open)
      && (!o.Ok? ==> r' == r && notes' == notes)
      && (o.Ok? ==> && r'.participants[(sid, u)].status == Accepted
                    && r'.sessions.rows[sid].acceptedCount == r.sessions.rows[sid].acceptedCount + 1
                    && (r'.sessions.rows[sid].status == Full <==> r'.sessions.rows[sid].acceptedCount >= r.sessions.rows[sid].maxPeople)
                    && notes'.rows[notes.Fresh()].userId == u)
  {
  }

  lemma {:induction false} DeclineWritesKeepInvariant(r: Roster, s: Session, u: Oid, now: int)
    requires RosterValid(r)
    requires s.id in r.sessions.rows && r.sessions.rows[s.id] == s
    requires (s.id, u) in r.participants && r.participants[(s.id, u)].status == Pending
    ensures RosterValid(DeclineWrites(r, s, u, now))
  {
    var p := r.participants[(s.id, u)].(status := Declined, updatedAt := now);
    var cu := CountUpdates(Some(s.participantsCount - 1), None, None);
    DeclinePutFacts(r, s, u, now);
    PutKeepsInvariant(r, DeclineWrites(r, s, u, now), s.id, cu, now, (s.id, u), p);
  }

  lemma {:induction false} DeclinePutFacts(r: Roster, s: Session, u: Oid, now: int)
    requires RosterValid(r)
    requires s.id in r.sessions.rows && r.sessions.rows[s.id] == s
    requires (s.id, u) in r.participants && r.participants[(s.id, u)].status == Pending
    ensures var s' := ApplyCounts(s, CountUpdates(Some(s.participantsCount - 1), None, None), now);
      CountsMatch(r.participants[(s.id, u) := r.participants[(s.id, u)].(status := Declined, updatedAt := now)], s') &&
      WithinCapacity(s')
  {
    var p := r.participants[(s.id, u)].(status := Declined, updatedAt := now);
    CountAfterPut(r.participants, (s.id, u), p, s.id, Pending);
    CountAfterPut(r.participants, (s.id, u), p, s.id, Accepted);
  }

  /** The corrected decline keeps the invariant: a pending record leaves the
      participant count as it becomes declined. */
  lemma {:induction false} DeclineKeepsInvariant(r: Roster, me: Oid, sid: Oid, u: Oid, now: int)
    requires RosterValid(r)
    ensures RosterValid(DeclineStep(r, me, sid, u, now).1)
  {
    if && sid in r.sessions.rows && r.sessions.rows[sid].createdBy == me
       && (sid, u) in r.participants && r.participants[(sid, u)].status == Pending
    {
      var s := r.sessions.rows[sid];
      assert s.id == sid;
      DeclineWritesKeepInvariant(r, s, u, now);
    }
  }

  /** The corrected decline succeeds exactly for the creator and a pending
      record, which becomes declined with one participant fewer. */
  lemma {:induction false} DeclineEffects(r: Roster, me: Oid, sid: Oid, u: Oid, now: int)
    requires SessionsValid(r.sessions)
    ensures var (o, r') := DeclineStep(r, me, sid, u, now);
      && (o.Ok? <==> && sid in r.sessions.rows && r.sessions.rows[sid].createdBy == me
                     && (sid, u) in r.participants && r.participants[(sid, u)].status == Pending)
      && (!o.Ok? ==> r' == r)
      && (o.Ok? ==> && r'.participants[(sid, u)].status == Declined
                    && r'.sessions.rows[sid].participantsCount == r.sessions.rows[sid].participantsCount - 1
                    && r'.sessions.rows[sid].acceptedCount == r.sessions.rows[sid].acceptedCount)
  {
  }

  lemma {:induction false} LeaveRemoveFacts(r: Roster, s: Session, me: Oid, now: int)
    requires RosterValid(r)
    requires s.id in r.sessions.rows && r.sessions.rows[s.id] == s && (s.id, me) in r.participants
    ensures var s' := ApplyCounts(s, LeaveUpdates(s, r.participants[(s.id, me)].status, true), now);
      CountsMatch(r.participants - {(s.id, me)}, s') && WithinCapacity(s')
  {
    CountAfterRemove(r.participants, (s.id, me), s.id, Pending);
    CountAfterRemove(r.participants, (s.id, me), s.id, Accepted);
  }

  /** The corrected leave keeps the invariant: the record goes away and each
      counter it was counted in goes down by one; a full session whose
      accepted member leaves is open again. */
  lemma {:induction false} LeaveKeepsInvariant(r: Roster, me: Oid, sid: Oid, now: int)
    requires RosterValid(r)
    ensures RosterValid(LeaveStep(r, me, sid, now).1)
  {
    if sid in r.sessions.rows && r.sessions.rows[sid].createdBy != me && (sid, me) in r.participants {
      var s := r.sessions.rows[sid];
      assert s.id == sid;
      var cu := LeaveUpdates(s, r.participants[(sid, me)].status, true);
      LeaveRemoveFacts(r, s, me, now);
      RemoveKeepsInvariant(r, LeaveStep(r, me, sid, now).1, sid, cu, now, (sid, me));
    }
  }

  /** The creator cannot leave; anyone else with a record leaves, and an
      accepted member leaving a full session opens it again. */
  lemma {:induction false} LeaveEffects(r: Roster, me: Oid, sid: Oid, now: int)
    ensures var (o, r') := LeaveStep(r, me, sid, now);
      && (sid in r.sessions.rows && r.sessions.rows[sid].createdBy == me ==> o == Fail(400, "CREATOR_CANNOT_LEAVE"))
      && (o.Ok? <==> sid in r.sessions.rows && r.sessions.rows[sid].createdBy != me && (sid, me) in r.participants)
      && (!o.Ok? ==> r' == r)
      && (o.Ok? ==> && (sid, me) !in r'.participants
                    && (r.participants[(sid, me)].status == Accepted && r.sessions.rows[sid].status == Full ==>
                          r'.sessions.rows[sid].status == Open))
  {
  }

  /** Cancelling keeps the invariant: it rewrites nothing but the status. */
  lemma {:induction false} CancelKeepsInvariant(r: Roster, notes: N.Notes, me: Oid, sid: Oid, to: seq<Oid>, now: int)
    requires RosterValid(r)
    ensures RosterValid(CancelStep(r, notes, me, sid, to, now).1)
  {
    if sid in r.sessions.rows && r.sessions.rows[sid].createdBy == me {
      var s := r.sessions.rows[sid];
      assert s.id == sid;
      var s' := ApplySessionPatch(s, CancelPatch, now);
      assert CancelStep(r, notes, me, sid, to, now).1 == r.(sessions := r.sessions.(rows := r.sessions.rows[sid := s']));
      assert s'.id == sid && CountsMatch(r.participants, s') && WithinCapacity(s');
    }
  }

  /** Cancel is creator-only, marks the session cancelled, and adds one
      notification per recipient, in order, under fresh ids. */
  lemma {:induction false} CancelEffects(r: Roster, notes: N.Notes, me: Oid, sid: Oid, to: seq<Oid>, now: int)
    requires N.NotificationsValid(notes)
    ensures var (o, r', notes') := CancelStep(r, notes, me, sid, to, now);
      && N.NotificationsValid(notes')
      && (o.Ok? <==> sid in r.sessions.rows && r.sessions.rows[sid].createdBy == me)
      && (!o.Ok? ==> r' == r && notes' == notes)
      && (o.Ok? ==> && r'.sessions.rows[sid].status == Cancelled
                    && r'.participants == r.participants
                    && notes'.nextId == notes.nextId + |to|
                    && (forall i :: 0 <= i < |to| ==>
                          var id := Oid(notes.nextId + i);
                          id in notes'.rows && notes'.rows[id].userId == to[i] &&
                          notes'.rows[id].kind == N.SessionCancelled))
  {
    if sid in r.sessions.rows && r.sessions.rows[sid].createdBy == me {
      var make := CancelNotice(r.sessions.rows[sid]);
      N.InsertEachKeeps(notes, to, make, now);
      N.InsertEachAddsOnePerRecipient(notes, to, make, now);
      var notes' := N.InsertEach(notes, to, make, now);
      forall i | 0 <= i < |to|
        ensures notes'.rows[Oid(notes.nextId + i)].userId == to[i]
        ensures notes'.rows[Oid(notes.nextId + i)].kind == N.SessionCancelled
      {
        assert make(to[i]).userId == to[i] && make(to[i]).kind == N.SessionCancelled;
      }
    }
  }

  /** Saving, unsaving and inviting answer as their guards say and change
      only the record or notification they are about. */
  lemma {:induction false} SaveAndInviteGuards(sessions: Table<Oid, Session>, saved: map<E.EdgeKey, E.Edge>,
                                               friends: map<F.FriendKey, F.Friendship>, notes: N.Notes,
                                               me: Oid, myName: string, sid: Oid, friendId: Oid, now: int)
    ensures var (o, saved') := SaveSessionStep(sessions, saved, me, sid, now);
      && (o.Ok? <==> sid in sessions.rows && SessionEdge(me, sid) !in saved)
      && (o.Ok? ==> saved'.Keys == saved.Keys + {SessionEdge(me, sid)})
      && (!o.Ok? ==> saved' == saved)
    ensures var (o, saved') := UnsaveSessionStep(saved, me, sid);
      && (o.Ok? <==> SessionEdge(me, sid) in saved)
      && SessionEdge(me, sid) !in saved'
      && (forall k :: k in saved && k != SessionEdge(me, sid) ==> k in saved')
    ensures var (o, notes') := InviteStep(sessions, friends, notes, me, myName, sid, friendId, now);
      && (o.Ok? <==> sid in sessions.rows && sessions.rows[sid].createdBy == me && F.AreFriends(friends, me, friendId))
      && (o.Ok? ==> notes'.rows[notes.Fresh()].userId == friendId && notes'.rows[notes.Fresh()].kind == N.SessionInvite)
      && (!o.Ok? ==> notes' == notes)
  {
  }

  // ---------------------------------------------------------------------------
  // Where the steps as written break the invariant

  /** Declining a record that is not pending (an accepted member, or one
      declined before) leaves the counters disagreeing with the records. */
  lemma {:induction false} DeclineAsWrittenBreaksCounts(r: Roster, me: Oid, sid: Oid, u: Oid, now: int)
    requires RosterValid(r)
    requires sid in r.sessions.rows && r.sessions.rows[sid].createdBy == me
    requires (sid, u) in r.participants && r.participants[(sid, u)].status != Pending
    ensures var (o, r') := DeclineStepAsWritten(r, me, sid, u, now);
      o.Ok? && !CountsMatch(r'.participants, r'.sessions.rows[sid])
  {
    var p := r.participants[(sid, u)].(status := Declined, updatedAt := now);
    CountAfterPut(r.participants, (sid, u), p, sid, Pending);
    CountAfterPut(r.participants, (sid, u), p, sid, Accepted);
  }

  /** Leaving with a declined record lowers participantsCount a second time. */
  lemma {:induction false} LeaveAsWrittenBreaksCounts(r: Roster, me: Oid, sid: Oid, now: int)
    requires RosterValid(r)
    requires sid in r.sessions.rows && r.sessions.rows[sid].createdBy != me
    requires (sid, me) in r.participants && r.participants[(sid, me)].status == Declined
    ensures var (o, r') := LeaveStepAsWritten(r, me, sid, now);
      o.Ok? && !CountsMatch(r'.participants, r'.sessions.rows[sid])
  {
    CountAfterRemove(r.participants, (sid, me), sid, Pending);
    CountAfterRemove(r.participants, (sid, me), sid, Accepted);
  }

  /** Accepting a pending request of a full session pushes acceptedCount past
      maxPeople. */
  lemma {:induction false} AcceptAsWrittenOvershoots(r: Roster, notes: N.Notes, me: Oid, sid: Oid, u: Oid, now: int)
    requires RosterValid(r)
    requires sid in r.sessions.rows && r.sessions.rows[sid].createdBy == me && r.sessions.rows[sid].status == Full
    requires (sid, u) in r.participants && r.participants[(sid, u)].status == Pending
    ensures var (o, r', _) := AcceptStepAsWritten(r, notes, me, sid, u, now);
      && o.Ok?
      && r'.sessions.rows[sid].acceptedCount == r'.sessions.rows[sid].maxPeople + 1
      && !WithinCapacity(r'.sessions.rows[sid])
  {
  }

  /** A new session with maxPeople 2, two join requests and two accepts: as
      written, the second accept makes three accepted members; the corrected
      accept refuses it. */
  lemma OverbookingExample(notes: N.Notes)
    ensures var body := NewSession("study", None, None, None, None, None, 2, None, None);
      var host := Oid(0);
      var r0 := Roster(Table(map[], 0), map[]);
      var (_, r1, _) := CreateSessionStep(r0, Table(map[], 0), host, body, 0);
      var sid := Oid(0);
      var (_, r2, n2) := JoinStep(r1, notes, Oid(1), "a", sid, 1);
      var (_, r3, n3) := JoinStep(r2, n2, Oid(2), "b", sid, 2);
      var (o4, r4, n4) := AcceptStepAsWritten(r3, n3, host, sid, Oid(1), 3);
      var (o5, r5, _) := AcceptStepAsWritten(r4, n4, host, sid, Oid(2), 4);
      && o4.Ok? && sid in r4.sessions.rows && r4.sessions.rows[sid].status == Full
      && o5.Ok? && sid in r5.sessions.rows && r5.sessions.rows[sid].acceptedCount == 3 && r5.sessions.rows[sid].maxPeople == 2
      && AcceptStep(r4, n4, host, sid, Oid(2), 4).0 == Fail(400, "SESSION_NOT_AVAILABLE")
  {
    var body := NewSession("study", None, None, None, None, None, 2, None, None);
    var host, sid := Oid(0), Oid(0);
    var (_, r1, _) := CreateSessionStep(Roster(Table(map[], 0), map[]), Table(map[], 0), host, body, 0);
    assert r1.sessions.rows[sid].acceptedCount == 1 && r1.sessions.rows[sid].status == Open;
    var (_, r2, n2) := JoinStep(r1, notes, Oid(1), "a", sid, 1);
    assert (sid, Oid(1)) in r2.participants && r2.participants[(sid, Oid(1))].status == Pending;
    var (_, r3, n3) := JoinStep(r2, n2, Oid(2), "b", sid, 2);
    assert r3.sessions.rows[sid].acceptedCount == 1 && r3.sessions.rows[sid].status == Open;
    assert r3.participants[(sid, Oid(1))].status == Pending && r3.participants[(sid, Oid(2))].status == Pending;
    var (o4, r4, n4) := AcceptStepAsWritten(r3, n3, host, sid, Oid(1), 3);
    assert r4.sessions.rows[sid].acceptedCount == 2 && r4.participants[(sid, Oid(2))].status == Pending;
  }

  // ---------------------------------------------------------------------------
  // The handlers

  method CreateSession(sessions: SessionTable, participants: ParticipantTable, users: UserTable,
                       me: Oid, body: NewSession, now: int) returns (o: Outcome)
    requires sessions.Valid() && participants.Valid() && users.Valid()
    modifies sessions, participants, users
    ensures sessions.Valid() && participants.Valid() && users.Valid()
    ensures (o, Roster(sessions.Snap(), participants.rows), users.Snap()) ==
      CreateSessionStep(old(Roster(sessions.Snap(), participants.rows)), old(users.Snap()), me, body, now)
  {
    var s := sessions.CreateSession(me, body, now);
    var r := participants.CreateParticipant(s.id, me, Some(Accepted), now);
    if r.DuplicateKey? {
      return DuplicateKeyReply;
    }
    users.IncrementUserStat(me, SessionsCreated, 1, now);
    o := Ok(201);
  }

  method JoinSession(sessions: SessionTable, participants: ParticipantTable, notifications: N.NotificationTable,
                     me: Oid, myName: string, sid: Oid, now: int) returns (o: Outcome)
    requires sessions.Valid() && participants.Valid() && notifications.Valid()
    modifies sessions, participants, notifications
    ensures sessions.Valid() && participants.Valid() && notifications.Valid()
    ensures (o, Roster(sessions.Snap(), participants.rows), notifications.Snap()) ==
      JoinStep(old(Roster(sessions.Snap(), participants.rows)), old(notifications.Snap()), me, myName, sid, now)
  {
    var session := sessions.FindSessionById(sid);
    if session.None? {
      return SessionNotFound;
    }
    var s := session.value;
    if s.status == Full || s.status == Cancelled {
      return NotAvailable;
    }
    var existing := participants.FindParticipant(sid, me);
    if existing.Some? {
      return Fail(409, "ALREADY_JOINED");
    }
    var _ := participants.CreateParticipant(sid, me, Some(Pending), now);
    sessions.UpdateSessionCounts(sid, CountUpdates(Some(s.participantsCount + 1), None, None), now);
    var _ := notifications.CreateNotification(JoinNotice(s, me, myName), now);
    o := Ok(200);
  }

  method AcceptParticipant(sessions: SessionTable, participants: ParticipantTable, notifications: N.NotificationTable,
                           me: Oid, sid: Oid, u: Oid, now: int) returns (o: Outcome)
    requires sessions.Valid() && participants.Valid() && notifications.Valid()
    modifies sessions, participants, notifications
    ensures sessions.Valid() && participants.Valid() && notifications.Valid()
    ensures (o, Roster(sessions.Snap(), participants.rows), notifications.Snap()) ==
      AcceptStep(old(Roster(sessions.Snap(), participants.rows)), old(notifications.Snap()), me, sid, u, now)
  {
    var session := sessions.FindSessionById(sid);
    if session.None? {
      return SessionNotFound;
    }
    var s := session.value;
    if s.createdBy != me {
      return Forbidden;
    }
    var participant := participants.FindParticipant(sid, u);
    if participant.None? {
      return ParticipantNotFound;
    }
    if participant.value.status != Pending {
      return InvalidStatus;
    }
    if s.status != Open || s.acceptedCount >= s.maxPeople {
      return NotAvailable;
    }
    var _ := participants.UpdateParticipantStatus(sid, u, Accepted, now);
    var n := s.acceptedCount + 1;
    var updates := CountUpdates(None, Some(n), None);
    if n >= s.maxPeople {
      updates := updates.(status := Some(Full));
    }
    assert updates == CountUpdates(None, Some(n), if n >= s.maxPeople then Some(Full) else None);
    sessions.UpdateSessionCounts(sid, updates, now);
    var _ := notifications.CreateNotification(AcceptNotice(s, u), now);
    assert Roster(sessions.Snap(), participants.rows) == AcceptWrites(old(Roster(sessions.Snap(), participants.rows)), s, u, now);
    o := Ok(200);
  }

  method DeclineParticipant(sessions: SessionTable, participants: ParticipantTable,
                            me: Oid, sid: Oid, u: Oid, now: int) returns (o: Outcome)
    requires sessions.Valid() && participants.Valid()
    modifies sessions, participants
    ensures sessions.Valid() && participants.Valid()
    ensures (o, Roster(sessions.Snap(), participants.rows)) ==
      DeclineStep(old(Roster(sessions.Snap(), participants.rows)), me, sid, u, now)
  {
    var session := sessions.FindSessionById(sid);
    if session.None? {
      return SessionNotFound;
    }
    var s := session.value;
    if s.createdBy != me {
      return Forbidden;
    }
    var participant := participants.FindParticipant(sid, u);
    if participant.None? {
      return ParticipantNotFound;
    }
    if participant.value.status != Pending {
      return InvalidStatus;
    }
    var _ := participants.UpdateParticipantStatus(sid, u, Declined, now);
    sessions.UpdateSessionCounts(sid, CountUpdates(Some(s.participantsCount - 1), None, None), now);
    o := Ok(200);
  }

  method LeaveSession(sessions: SessionTable, participants: ParticipantTable,
                      me: Oid, sid: Oid, now: int) returns (o: Outcome)
    requires sessions.Valid() && participants.Valid()
    modifies sessions, participants
    ensures sessions.Valid() && participants.Valid()
    ensures (o, Roster(sessions.Snap(), participants.rows)) ==
      LeaveStep(old(Roster(sessions.Snap(), participants.rows)), me, sid, now)
  {
    var session := sessions.FindSessionById(sid);
    if session.None? {
      return SessionNotFound;
    }
    var s := session.value;
    if s.createdBy == me {
      return Fail(400, "CREATOR_CANNOT_LEAVE");
    }
    var participant := participants.FindParticipant(sid, me);
    if participant.None? {
      return Fail(404, "NOT_A_PARTICIPANT");
    }
    var _ := participants.DeleteParticipant(sid, me);
    var updates := CountUpdates(None, None, None);
    if participant.value.status != Declined {
      updates := updates.(participantsCount := Some(s.participantsCount - 1));
    }
    if participant.value.status == Accepted {
      updates := updates.(acceptedCount := Some(s.acceptedCount - 1));
      if s.status == Full {
        updates := updates.(status := Some(Open));
      }
    }
    sessions.UpdateSessionCounts(sid, updates, now);
    o := Ok(200);
  }

  /** The entries of `s` other than `x`, in order. */
  function Without(s: seq<Oid>, x: Oid): (r: seq<Oid>)
    ensures forall u :: u in r <==> u in s && u != x
    ensures Distinct(s) ==> Distinct(r)
  {
    if s == [] then []
    else
      var rest := Without(s[1..], x);
      if s[0] == x then rest
      else
        assert Distinct(s) ==> s[0] !in rest;
        [s[0]] + rest
  }

  /** `cancelSession`; `notified` is the recipients of the cancellation
      notice, in the order they were notified. */
  method CancelSession(sessions: SessionTable, participants: ParticipantTable, notifications: N.NotificationTable,
                       me: Oid, sid: Oid, now: int) returns (o: Outcome, notified: seq<Oid>)
    requires sessions.Valid() && participants.Valid() && notifications.Valid()
    modifies sessions, notifications
    ensures sessions.Valid() && notifications.Valid()
    ensures (o, Roster(sessions.Snap(), participants.rows), notifications.Snap()) ==
      CancelStep(old(Roster(sessions.Snap(), participants.rows)), old(notifications.Snap()), me, sid, notified, now)
    ensures o.Ok? ==> CancelRecipients(Roster(sessions.Snap(), participants.rows), sid, me, notified)
  {
    notified := [];
    var session := sessions.FindSessionById(sid);
    if session.None? {
      return SessionNotFound, notified;
    }
    var s := session.value;
    if s.createdBy != me {
      return Forbidden, notified;
    }
    var _ := sessions.UpdateSession(sid, CancelPatch, now);
    var ids := participants.SessionUserIds(sid);
    notified := Without(ids, me);
    notifications.CreateEach(notified, CancelNotice(s), now);
    o := Ok(200);
  }

  method SaveSession(sessions: SessionTable, saved: E.EdgeTable, me: Oid, sid: Oid, now: int) returns (o: Outcome)
    requires sessions.Valid() && saved.Valid()
    modifies saved
    ensures saved.Valid()
    ensures (o, saved.rows) == SaveSessionStep(sessions.Snap(), old(saved.rows), me, sid, now)
  {
    var session := sessions.FindSessionById(sid);
    if session.None? {
      return SessionNotFound;
    }
    var existing := saved.Find(SessionEdge(me, sid));
    if existing.Some? {
      return Fail(409, "ALREADY_SAVED");
    }
    var _ := saved.Create(SessionEdge(me, sid), now);
    o := Ok(200);
  }

  method UnsaveSession(saved: E.EdgeTable, me: Oid, sid: Oid) returns (o: Outcome)
    requires saved.Valid()
    modifies saved
    ensures saved.Valid()
    ensures (o, saved.rows) == UnsaveSessionStep(old(saved.rows), me, sid)
  {
    var deleted := saved.Delete(SessionEdge(me, sid));
    if !deleted {
      assert saved.rows == old(saved.rows);
      return Fail(404, "SAVED_NOT_FOUND");
    }
    o := Ok(200);
  }

  method InviteFriend(sessions: SessionTable, friends: F.FriendTable, notifications: N.NotificationTable,
                      me: Oid, myName: string, sid: Oid, friendId: Oid, now: int) returns (o: Outcome)
    requires sessions.Valid() && friends.Valid() && notifications.Valid()
    modifies notifications
    ensures notifications.Valid()
    ensures (o, notifications.Snap()) ==
      InviteStep(sessions.Snap(), friends.rows, old(notifications.Snap()), me, myName, sid, friendId, now)
  {
    var session := sessions.FindSessionById(sid);
    if session.None? {
      return SessionNotFound;
    }
    var s := session.value;
    if s.createdBy != me {
      return Forbidden;
    }
    var friendship := friends.FindFriendship(me, friendId);
    if friendship.None? {
      return Fail(400, "NOT_FRIENDS");
    }
    var _ := notifications.CreateNotification(InviteNotice(s, me, myName, friendId), now);
    o := Ok(200);
  }
}
