/**
 * The block handlers of internal/blocks/handler.go. `BlockUser` depends on
 * the friends handler only through `RemoveFriendship` (the
 * `FriendshipRemover` interface); both handlers share one store.
 */
module Blocks {
  import opened Wrappers
  import opened Models
  import opened Database
  import Friends

  const SelfBlock := ErrorResponse(400, "self_block")
  const AlreadyBlocked := ErrorResponse(409, "already_blocked")

  /** A block between two different accounts keeps the handlers' invariant. */
  lemma InsertKeepsConsistent(fs: seq<Friendship>, bs: seq<Block>, row: Block)
    requires Friends.Consistent(fs, bs)
    requires row.blockerId != row.blockedId
    ensures Friends.Consistent(fs, bs + [row])
  {
  }

  class Handler {
    const db: Db
    const friends: Friends.Handler

    constructor (db: Db, friends: Friends.Handler)
      requires friends.db == db
      ensures this.db == db && this.friends == friends
    {
      this.db := db;
      this.friends := friends;
    }

    /** `POST /blocks`: `caller` blocks `target` (absent when the body does not bind). */
    method BlockUser(caller: AccountId, target: Option<AccountId>, newId: RowId, now: Time) returns (r: Reply<string>)
      requires db.Valid() && friends.db == db
      modifies db
      ensures db.Valid()
      ensures old(Friends.Consistent(db.friendships, db.blocks)) ==> Friends.Consistent(db.friendships, db.blocks)
      ensures target.None? ==> r == Err(InvalidRequest) && unchanged(db)
      ensures target == Some(caller) ==> r == Err(SelfBlock) && unchanged(db)
      ensures target.Some? && target.value != caller ==>
        var blocked := target.value;
        var row := Block(newId, caller, blocked, now);
        if exists b :: b in old(db.blocks) && BlockMatches(b, Pair(caller, blocked)) then
          r == Err(AlreadyBlocked) && unchanged(db)
        else if exists b :: b in old(db.blocks) && b.id == newId then
          r == Err(CreationFailed) && unchanged(db)
        else
          && r == Ok(201, "blocked")
          && db.blocks == old(db.blocks) + [row]
          && db.friendships == Filter(old(db.friendships), FriendshipMatches, Between(caller, blocked), false)
    {
      if target.None? {
        return Err(InvalidRequest);
      }
      var blocked := target.value;
      if caller == blocked {
        return Err(SelfBlock);
      }
      var exists_ := exists b | b in db.blocks :: BlockMatches(b, Pair(caller, blocked));
      if exists_ {
        return Err(AlreadyBlocked);
      }
      var row := Block(newId, caller, blocked, now);
      ghost var before := db.blocks;
      ghost var wasConsistent := Friends.Consistent(db.friendships, db.blocks);
      if wasConsistent {
        InsertKeepsConsistent(db.friendships, db.blocks, row);
      }
      var ok := db.InsertBlock(row);
      assert ok <==> !exists b :: b in before && b.id == newId by {
        forall b | b in before ensures BlockKeysDiffer(b, row) <==> b.id != newId {
          assert !BlockMatches(b, Pair(caller, blocked));
        }
      }
      if !ok {
        return Err(CreationFailed);
      }
      assert wasConsistent ==> Friends.Consistent(db.friendships, db.blocks);
      // The result of the removal is ignored: the block stands either way.
      friends.RemoveFriendship(caller, blocked);
      return Ok(201, "blocked");
    }

    /** `DELETE /blocks/:accountId`: removes only the block `caller` placed on `blocked`. */
    method UnblockUser(caller: AccountId, blocked: AccountId) returns (r: Reply<string>)
      requires db.Valid()
      modifies db
      ensures db.Valid()
      ensures old(Friends.Consistent(db.friendships, db.blocks)) ==> Friends.Consistent(db.friendships, db.blocks)
      ensures db.blocks == Filter(old(db.blocks), BlockMatches, Pair(caller, blocked), false)
      ensures db.friendships == old(db.friendships)
      ensures r == if forall b :: b in old(db.blocks) ==> !BlockMatches(b, Pair(caller, blocked))
                   then Err(NotFound) else Ok(200, "unblocked")
    {
      var rows := db.DeleteBlocks(Pair(caller, blocked));
      if rows == 0 {
        return Err(NotFound);
      }
      return Ok(200, "unblocked");
    }
  }

  /** `GET /blocks`: one entry per block `caller` placed, in table order. */
  function ListBlocked(table: seq<Block>, caller: AccountId): (r: seq<BlockedUser>)
    ensures |r| <= |table|
    ensures forall k :: 0 <= k < |r| ==> BlockedSince(table, caller, r[k])
  {
    var rows := Filter(table, BlockMatches, ByBlocker(caller), true);
    var r := seq(|rows|, k requires 0 <= k < |rows| => BlockedUser(rows[k].blockedId, rows[k].createdAt));
    assert forall k :: 0 <= k < |r| ==> BlockedSince(table, caller, r[k]) by {
      forall k | 0 <= k < |r| ensures BlockedSince(table, caller, r[k]) {
        assert rows[k] in rows;
      }
    }
    r
  }

  /** `caller` blocked `entry`'s account at `entry`'s time. */
  predicate BlockedSince(table: seq<Block>, caller: AccountId, entry: BlockedUser)
  {
    exists b :: b in table && b.blockerId == caller && b.blockedId == entry.accountId && entry.since == b.createdAt
  }

  /** `x` is named by some entry of the block list `r`. */
  predicate Names(r: seq<BlockedUser>, x: AccountId)
  {
    exists k :: 0 <= k < |r| && r[k].accountId == x
  }

  /** The block list names exactly the accounts `caller` blocked, one entry per block row. */
  lemma ListBlockedExactly(table: seq<Block>, caller: AccountId)
    ensures |ListBlocked(table, caller)| == |Filter(table, BlockMatches, ByBlocker(caller), true)|
    ensures forall x :: Names(ListBlocked(table, caller), x) <==> exists b :: b in table && b.blockerId == caller && b.blockedId == x
  {
    var rows := Filter(table, BlockMatches, ByBlocker(caller), true);
    var r := ListBlocked(table, caller);
    forall x ensures Names(r, x) <==> exists b :: b in table && b.blockerId == caller && b.blockedId == x {
      if exists b :: b in table && b.blockerId == caller && b.blockedId == x {
        var b :| b in table && b.blockerId == caller && b.blockedId == x;
        assert b in rows;
        var k :| 0 <= k < |rows| && rows[k] == b;
        assert r[k].accountId == x;
      }
      if Names(r, x) {
        var k :| 0 <= k < |r| && r[k].accountId == x;
        assert rows[k] in rows;
      }
    }
  }

  /** The unique `(blocker_id, blocked_id)` index means nobody is listed twice. */
  lemma ListBlockedDistinct(table: seq<Block>, caller: AccountId)
    requires Pairwise(table, BlockKeysDiffer)
    ensures var r := ListBlocked(table, caller);
      forall i, j | 0 <= i < j < |r| :: r[i].accountId != r[j].accountId
  {
    var rows := Filter(table, BlockMatches, ByBlocker(caller), true);
    FilterPairwise(table, BlockMatches, ByBlocker(caller), true, BlockKeysDiffer);
    var r := ListBlocked(table, caller);
    forall i, j | 0 <= i < j < |r| ensures r[i].accountId != r[j].accountId {
      assert rows[i] in rows && rows[j] in rows;
      assert BlockKeysDiffer(rows[i], rows[j]);
    }
  }

  /**
   * Once `x` has blocked `y`, a friend request between them fails with
   * `blocked` whoever sends it, and no friendship row between them is left.
   */
  method BlockThenRequest(blocks: Handler, x: AccountId, y: AccountId, blockId: RowId, requestId: RowId, now: Time)
    returns (blockReply: Reply<string>, fromBlocker: Reply<Friendship>, fromBlocked: Reply<Friendship>)
    requires blocks.db.Valid() && blocks.friends.db == blocks.db
    modifies blocks.db
    ensures blockReply == Ok(201, "blocked") ==>
      && fromBlocker == Err(Friends.BlockedError)
      && fromBlocked == Err(Friends.BlockedError)
      && forall f :: f in blocks.db.friendships ==> !Joins(f, x, y)
  {
    blockReply := blocks.BlockUser(x, Some(y), blockId, now);
    var blocked := blockReply == Ok(201, "blocked");
    if blocked {
      var row := Block(blockId, x, y, now);
      assert x != y && row in blocks.db.blocks;
      assert Friends.BlockedEitherWay(blocks.db.blocks, x, y) by {
        assert BlockMatches(row, EitherWay(x, y));
      }
      assert Friends.BlockedEitherWay(blocks.db.blocks, y, x) by {
        assert BlockMatches(row, EitherWay(y, x));
      }
    }
    fromBlocker := blocks.friends.SendRequest(x, Some(y), requestId, now);
    fromBlocked := blocks.friends.SendRequest(y, Some(x), requestId, now);
  }
}
