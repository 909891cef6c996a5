/** The block and report handlers (controllers/blockController.js). A block
    is stored in one direction only; whether two users are blocked is then
    tested in both. Ids are compared here as ObjectIds, so refusing the
    caller's own id keeps the invariant `NoSelfBlock`; the source compares
    the path text with the caller's id string, which only the canonical
    lower-case spelling of that id meets. */
module BlockController {
  import opened Common
  import opened BlockModel
  import RM = ReportModel

  const InvalidRequest := Fail(400, "INVALID_REQUEST")
  const AlreadyBlocked := Fail(409, "ALREADY_BLOCKED")
  const BlockNotFound := Fail(404, "BLOCK_NOT_FOUND")

  /** `blockUser`: refuses the caller's own id and an existing block; the
      blocked user is not looked up. */
  function BlockStep(blocks: map<BlockKey, Block>, me: Oid, userId: Oid, now: int): (Outcome, map<BlockKey, Block>) {
    if userId == me then (InvalidRequest, blocks)
    else if (me, userId) in blocks then (AlreadyBlocked, blocks)
    else
      var (ins, blocks') := InsertBlock(blocks, me, userId, now);
      if ins.DuplicateKey? then (DuplicateKeyReply, blocks) else (Ok(200), blocks')
  }

  /** `unblockUser`: deletes the caller's block, 404 when there was none. */
  function UnblockStep(blocks: map<BlockKey, Block>, me: Oid, userId: Oid): (Outcome, map<BlockKey, Block>) {
    var (deleted, blocks') := RemoveBlock(blocks, me, userId);
    if !deleted then (BlockNotFound, blocks) else (Ok(200), blocks')
  }

  /** `createReport`: the report is filed under the caller. */
  function ReportStep(reports: Table<Oid, RM.Report>, me: Oid, targetType: string, targetId: Oid, reason: string, now: int)
    : (Outcome, RM.Report, Table<Oid, RM.Report>)
  {
    var (r, reports') := RM.InsertReport(reports, me, targetType, targetId, reason, now);
    (Ok(201), r, reports')
  }

  ghost predicate NoSelfBlock(blocks: map<BlockKey, Block>) {
    forall k :: k in blocks ==> k.0 != k.1
  }

  /** Blocking succeeds exactly for another user not yet blocked by the
      caller; afterwards the two are blocked both ways and the caller's
      blocked list holds the user. A refusal changes nothing. The invariant
      is kept. */
  lemma {:induction false} BlockEffects(blocks: map<BlockKey, Block>, me: Oid, userId: Oid, now: int)
    requires BlocksValid(blocks) && NoSelfBlock(blocks)
    ensures var (o, blocks') := BlockStep(blocks, me, userId, now);
      && BlocksValid(blocks') && NoSelfBlock(blocks')
      && (o == InvalidRequest <==> userId == me)
      && (o == AlreadyBlocked <==> userId != me && (me, userId) in blocks)
      && (o.Ok? <==> userId != me && (me, userId) !in blocks)
      && (o.Ok? ==> blocks'.Keys == blocks.Keys + {(me, userId)}
                    && IsBlocked(blocks', me, userId) && IsBlocked(blocks', userId, me)
                    && userId in BlockedUserIds(blocks', me))
      && (!o.Ok? ==> blocks' == blocks)
  {
    BlockOperationsAgree(blocks, me, userId, now);
    BlockOperationsAgree(InsertBlock(blocks, me, userId, now).1, me, userId, now);
  }

  /** Unblocking succeeds exactly when the caller's block exists and removes
      just that one; the two stay blocked only if the other user blocks the
      caller. The invariant is kept. */
  lemma {:induction false} UnblockEffects(blocks: map<BlockKey, Block>, me: Oid, userId: Oid)
    requires BlocksValid(blocks) && NoSelfBlock(blocks)
    ensures var (o, blocks') := UnblockStep(blocks, me, userId);
      && BlocksValid(blocks') && NoSelfBlock(blocks')
      && (o.Ok? <==> (me, userId) in blocks)
      && (!o.Ok? ==> o == BlockNotFound && blocks' == blocks)
      && (o.Ok? ==> blocks' == blocks - {(me, userId)}
                    && (IsBlocked(blocks', me, userId) <==> (userId, me) in blocks)
                    && userId !in BlockedUserIds(blocks', me))
  {
    BlockOperationsAgree(blocks, me, userId, 0);
  }

  /** A report is added under a fresh id with the caller as reporter. */
  lemma {:induction false} ReportEffects(reports: Table<Oid, RM.Report>, me: Oid, targetType: string, targetId: Oid,
                                         reason: string, now: int)
    requires RM.ReportsValid(reports)
    ensures var (o, r, reports') := ReportStep(reports, me, targetType, targetId, reason, now);
      && o == Ok(201) && RM.ReportsValid(reports')
      && r.reporterId == me && r.targetType == targetType && r.targetId == targetId && r.reason == reason
      && r.id !in reports.rows && reports'.rows == reports.rows[r.id := r]
  {
  }

  method BlockUser(blocks: BlockTable, me: Oid, userId: Oid, now: int) returns (o: Outcome)
    requires blocks.Valid()
    modifies blocks
    ensures blocks.Valid()
    ensures (o, blocks.rows) == BlockStep(old(blocks.rows), me, userId, now)
  {
    if userId == me {
      return InvalidRequest;
    }
    var existing := blocks.FindBlock(me, userId);
    if existing.Some? {
      return AlreadyBlocked;
    }
    var ins := blocks.CreateBlock(me, userId, now);
    if ins.DuplicateKey? {
      return DuplicateKeyReply;
    }
    o := Ok(200);
  }

  method UnblockUser(blocks: BlockTable, me: Oid, userId: Oid) returns (o: Outcome)
    requires blocks.Valid()
    modifies blocks
    ensures blocks.Valid()
    ensures (o, blocks.rows) == UnblockStep(old(blocks.rows), me, userId)
  {
    var deleted := blocks.DeleteBlock(me, userId);
    if !deleted {
      assert blocks.rows == old(blocks.rows);
      return BlockNotFound;
    }
    o := Ok(200);
  }

  method CreateReport(reports: RM.ReportTable, me: Oid, targetType: string, targetId: Oid, reason: string, now: int)
    returns (o: Outcome, report: RM.Report)
    requires reports.Valid()
    modifies reports
    ensures reports.Valid()
    ensures (o, report, reports.Snap()) == ReportStep(old(reports.Snap()), me, targetType, targetId, reason, now)
  {
    report := reports.CreateReport(me, targetType, targetId, reason, now);
    o := Ok(201);
  }
}
