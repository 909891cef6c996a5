/** The blocks collection (models/Block.js): directed (blocker, blocked)
    pairs, unique per pair, and the symmetric "is either one blocking the
    other" test. */
module BlockModel {
  import opened Common

  datatype Block = Block(userId: Oid, blockedUserId: Oid, createdAt: int)

  /** The unique index (userId, blockedUserId). */
  type BlockKey = (Oid, Oid)

  ghost predicate BlocksValid(rows: map<BlockKey, Block>) {
    forall k :: k in rows ==> rows[k].userId == k.0 && rows[k].blockedUserId == k.1
  }

  /** `createBlock`: `insertOne` of the one direction, refused by the unique
      index. */
  function InsertBlock(rows: map<BlockKey, Block>, u: Oid, b: Oid, now: int): (Inserted<Block>, map<BlockKey, Block>) {
    if (u, b) in rows then (DuplicateKey, rows)
    else (Inserted(Block(u, b, now)), rows[(u, b) := Block(u, b, now)])
  }

  /** `deleteBlock`: `deleteOne`, true iff a record was removed. */
  function RemoveBlock(rows: map<BlockKey, Block>, u: Oid, b: Oid): (bool, map<BlockKey, Block>) {
    ((u, b) in rows, rows - {(u, b)})
  }

  /** `isBlocked`: a block exists in either direction. */
  function IsBlocked(rows: map<BlockKey, Block>, u: Oid, v: Oid): bool {
    (u, v) in rows || (v, u) in rows
  }

  /** `getBlockedUserIds`: the users `u` has blocked. */
  function BlockedUserIds(rows: map<BlockKey, Block>, u: Oid): set<Oid> {
    set k | k in rows.Keys && k.0 == u :: k.1
  }

  /** A block is directional: creating (u, b) stores exactly that pair, and
      finding, deleting and the blocked list agree with it. Blocking is
      tested in both directions, so the test is symmetric and holds iff
      either directed block exists. */
  lemma {:induction false} BlockOperationsAgree(rows: map<BlockKey, Block>, u: Oid, b: Oid, now: int)
    requires BlocksValid(rows)
    ensures var (r, rows') := InsertBlock(rows, u, b, now);
      && BlocksValid(rows')
      && (r.Inserted? <==> (u, b) !in rows)
      && (r.Inserted? ==> rows'.Keys == rows.Keys + {(u, b)})
      && (r.DuplicateKey? ==> rows' == rows)
      && b in BlockedUserIds(rows', u)
      && IsBlocked(rows', u, b) && IsBlocked(rows', b, u)
    ensures var (deleted, rows') := RemoveBlock(rows, u, b);
      && BlocksValid(rows') && (deleted <==> (u, b) in rows) && (u, b) !in rows'
      && b !in BlockedUserIds(rows', u)
      && (IsBlocked(rows', u, b) <==> u != b && (b, u) in rows)
    ensures IsBlocked(rows, u, b) == IsBlocked(rows, b, u)
    ensures forall x :: x in BlockedUserIds(rows, u) <==> (u, x) in rows
  {
    var rows' := InsertBlock(rows, u, b, now).1;
    assert (u, b) in rows' && (u, b).0 == u;
    var del := RemoveBlock(rows, u, b).1;
    forall x | x in BlockedUserIds(rows, u) ensures (u, x) in rows {
      var k :| k in rows && k.0 == u && k.1 == x;
    }
    forall x | (u, x) in rows ensures x in BlockedUserIds(rows, u) {
      assert (u, x).0 == u;
    }
  }

  class BlockTable {
    var rows: map<BlockKey, Block>

    ghost predicate Valid()
      reads this
    {
      BlocksValid(rows)
    }

    constructor ()
      ensures Valid() && rows == map[]
    {
      rows := map[];
    }

    method CreateBlock(u: Oid, b: Oid, now: int) returns (r: Inserted<Block>)
      requires Valid()
      modifies this
      ensures Valid()
      ensures (r, rows) == InsertBlock(old(rows), u, b, now)
    {
      if (u, b) in rows {
        return DuplicateKey;
      }
      rows := rows[(u, b) := Block(u, b, now)];
      r := Inserted(Block(u, b, now));
    }

    function FindBlock(u: Oid, b: Oid): (r: Option<Block>)
      reads this
      requires Valid()
      ensures r.Some? <==> (u, b) in rows
      ensures r.Some? ==> r.value.userId == u && r.value.blockedUserId == b
    {
      if (u, b) in rows then Some(rows[(u, b)]) else None
    }

    method DeleteBlock(u: Oid, b: Oid) returns (deleted: bool)
      requires Valid()
      modifies this
      ensures Valid()
      ensures (deleted, rows) == RemoveBlock(old(rows), u, b)
    {
      deleted := (u, b) in rows;
      rows := rows - {(u, b)};
    }
  }
}
