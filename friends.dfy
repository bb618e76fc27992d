/**
 * The friend-request handlers of internal/friends/handler.go as guarded
 * transitions of the relationship store, and the two listing handlers as
 * projections of the `friendships` table. The caller's account id is the one
 * the authentication middleware put in the request context.
 */
module Friends {
  import opened Wrappers
  import opened Models
  import opened Database

  const SelfFriend := ErrorResponse(400, "self_friend")
  const BlockedError := ErrorResponse(403, "blocked")
  const AlreadyFriends := ErrorResponse(409, "already_friends")
  const RequestExists := ErrorResponse(409, "request_exists")
  const NotFriends := ErrorResponse(404, "not_friends")

  /** Some block row links `a` and `b`, in either direction. */
  predicate BlockedEitherWay(blocks: seq<Block>, a: AccountId, b: AccountId)
  {
    exists k :: k in blocks && BlockMatches(k, EitherWay(a, b))
  }

  /** Two friendship rows never link the same two accounts, in either direction. */
  predicate DifferentPair(f: Friendship, g: Friendship)
  {
    !Joins(g, f.requesterId, f.addresseeId)
  }

  /**
   * What the handlers keep true beyond the unique indexes: nobody befriends or
   * blocks themself, and two accounts share at most one friendship row.
   */
  ghost predicate Consistent(friendships: seq<Friendship>, blocks: seq<Block>)
  {
    && (forall f :: f in friendships ==> f.requesterId != f.addresseeId)
    && Pairwise(friendships, DifferentPair)
    && (forall b :: b in blocks ==> b.blockerId != b.blockedId)
  }

  /** The primary key identifies a row. */
  lemma SameIdSameRow(fs: seq<Friendship>, f: Friendship, g: Friendship)
    requires Pairwise(fs, FriendshipKeysDiffer)
    requires f in fs && g in fs && f.id == g.id
    ensures f == g
  {
    var i :| 0 <= i < |fs| && fs[i] == f;
    var j :| 0 <= j < |fs| && fs[j] == g;
  }

  /**
   * Under the handlers' invariant the row `SendRequest` looks at is the only
   * one between the two accounts, so `already_friends` is answered exactly when
   * the two are friends.
   */
  lemma ExistingRowIsTheRow(fs: seq<Friendship>, bs: seq<Block>, a: AccountId, b: AccountId)
    requires Consistent(fs, bs)
    ensures var e := First(fs, FriendshipMatches, Between(a, b));
      e.Some? ==> forall g :: g in fs && Joins(g, a, b) ==> g == e.value
    ensures var e := First(fs, FriendshipMatches, Between(a, b));
      (e.Some? && e.value.status == Accepted) <==> exists g :: g in fs && Joins(g, a, b) && g.status == Accepted
  {
    var e := First(fs, FriendshipMatches, Between(a, b));
    if e.Some? {
      forall g | g in fs && Joins(g, a, b) ensures g == e.value {
        var i :| 0 <= i < |fs| && fs[i] == g;
        var j :| 0 <= j < |fs| && fs[j] == e.value;
      }
    }
  }

  /** A fresh `friendships` row keeps the handlers' invariant when it links two new accounts. */
  lemma InsertKeepsConsistent(fs: seq<Friendship>, bs: seq<Block>, row: Friendship)
    requires Consistent(fs, bs)
    requires row.requesterId != row.addresseeId
    requires forall g :: g in fs ==> !Joins(g, row.requesterId, row.addresseeId)
    ensures Consistent(fs + [row], bs)
  {
    AppendPairwise(fs, row, DifferentPair);
  }

  /** A delete keeps the handlers' invariant. */
  lemma DeleteKeepsConsistent(fs: seq<Friendship>, bs: seq<Block>, w: FriendshipWhere)
    requires Consistent(fs, bs)
    ensures Consistent(Filter(fs, FriendshipMatches, w, false), bs)
  {
    FilterPairwise(fs, FriendshipMatches, w, false, DifferentPair);
  }

  /** Rewriting rows without changing who they link keeps the handlers' invariant. */
  lemma SamePairsKeepConsistent(before: seq<Friendship>, after: seq<Friendship>, bs: seq<Block>)
    requires Consistent(before, bs)
    requires |after| == |before|
    requires forall i :: 0 <= i < |before| ==>
      after[i].requesterId == before[i].requesterId && after[i].addresseeId == before[i].addresseeId
    ensures Consistent(after, bs)
  {
    forall g | g in after ensures g.requesterId != g.addresseeId {
      var i :| 0 <= i < |after| && after[i] == g;
      assert before[i] in before;
    }
  }

  class Handler {
    const db: Db

    constructor (db: Db)
      ensures this.db == db
    {
      this.db := db;
    }

    /** `POST /friends/request`: `caller` asks `friendId` (absent when the body does not bind) to be friends. */
    method SendRequest(caller: AccountId, friendId: Option<AccountId>, newId: RowId, now: Time) returns (r: Reply<Friendship>)
      requires db.Valid()
      modifies db
      ensures db.Valid()
      ensures old(Consistent(db.friendships, db.blocks)) ==> Consistent(db.friendships, db.blocks)
      ensures friendId.None? ==> r == Err(InvalidRequest) && unchanged(db)
      ensures friendId == Some(caller) ==> r == Err(SelfFriend) && unchanged(db)
      ensures friendId.Some? && friendId.value != caller ==>
        var friend := friendId.value;
        var existing := First(old(db.friendships), FriendshipMatches, Between(caller, friend));
        var row := Friendship(newId, caller, friend, Pending, now, now);
        if BlockedEitherWay(old(db.blocks), caller, friend) then
          r == Err(BlockedError) && unchanged(db)
        else if existing.Some? then
          r == Err(if existing.value.status == Accepted then AlreadyFriends else RequestExists) && unchanged(db)
        else if exists g :: g in old(db.friendships) && g.id == newId then
          r == Err(CreationFailed) && unchanged(db)
        else
          r == Ok(201, row) && db.friendships == old(db.friendships) + [row] && db.blocks == old(db.blocks)
    {
      if friendId.None? {
        return Err(InvalidRequest);
      }
      var friend := friendId.value;
      if caller == friend {
        return Err(SelfFriend);
      }
      var blocked := exists k | k in db.blocks :: BlockMatches(k, EitherWay(caller, friend));
      if blocked {
        return Err(BlockedError);
      }
      var existing := First(db.friendships, FriendshipMatches, Between(caller, friend));
      if existing.Some? {
        if existing.value.status == Accepted {
          return Err(AlreadyFriends);
        }
        return Err(RequestExists);
      }
      var row := Friendship(newId, caller, friend, Pending, now, now);
      ghost var before := db.friendships;
      if Consistent(db.friendships, db.blocks) {
        InsertKeepsConsistent(db.friendships, db.blocks, row);
      }
      var ok := db.InsertFriendship(row);
      assert ok <==> !exists g :: g in before && g.id == newId by {
        forall g | g in before ensures FriendshipKeysDiffer(g, row) <==> g.id != newId {
          assert !FriendshipMatches(g, Between(caller, friend));
        }
      }
      if !ok {
        return Err(CreationFailed);
      }
      return Ok(201, row);
    }

    /** `POST /friends/accept`: the addressee accepts the pending request `requestId`. */
    method AcceptRequest(caller: AccountId, requestId: Option<RowId>, now: Time) returns (r: Reply<string>)
      requires db.Valid()
      modifies db
      ensures db.Valid()
      ensures old(Consistent(db.friendships, db.blocks)) ==> Consistent(db.friendships, db.blocks)
      ensures requestId.None? ==> r == Err(InvalidRequest) && unchanged(db)
      ensures requestId.Some? && (forall f :: f in old(db.friendships) ==> !FriendshipMatches(f, PendingRequest(requestId.value, caller))) ==>
        r == Err(NotFound) && unchanged(db)
      ensures requestId.Some? && (exists f :: f in old(db.friendships) && FriendshipMatches(f, PendingRequest(requestId.value, caller))) ==>
        && r == Ok(200, "accepted")
        && db.blocks == old(db.blocks)
        && |db.friendships| == |old(db.friendships)|
        && forall i :: 0 <= i < |db.friendships| ==>
             db.friendships[i] == if old(db.friendships)[i].id == requestId.value
                                  then old(db.friendships)[i].(status := Accepted, updatedAt := now)
                                  else old(db.friendships)[i]
    {
      if requestId.None? {
        return Err(InvalidRequest);
      }
      var found := First(db.friendships, FriendshipMatches, PendingRequest(requestId.value, caller));
      if found.None? {
        return Err(NotFound);
      }
      var f := found.value;
      forall g | g in db.friendships && g.id == f.id ensures g == f {
        SameIdSameRow(db.friendships, f, g);
      }
      ghost var before := db.friendships;
      ghost var wasConsistent := Consistent(before, db.blocks);
      db.UpdateFriendship(f.(status := Accepted, updatedAt := now));
      if wasConsistent {
        SamePairsKeepConsistent(before, db.friendships, db.blocks);
      }
      return Ok(200, "accepted");
    }

    /** `POST /friends/decline`: the addressee deletes the pending request `requestId`. */
    method DeclineRequest(caller: AccountId, requestId: Option<RowId>) returns (r: Reply<string>)
      requires db.Valid()
      modifies db
      ensures db.Valid()
      ensures old(Consistent(db.friendships, db.blocks)) ==> Consistent(db.friendships, db.blocks)
      ensures requestId.None? ==> r == Err(InvalidRequest) && unchanged(db)
      ensures requestId.Some? ==>
        && db.friendships == Filter(old(db.friendships), FriendshipMatches, PendingRequest(requestId.value, caller), false)
        && db.blocks == old(db.blocks)
        && r == if forall f :: f in old(db.friendships) ==> !FriendshipMatches(f, PendingRequest(requestId.value, caller))
                then Err(NotFound) else Ok(200, "declined")
    {
      if requestId.None? {
        return Err(InvalidRequest);
      }
      if Consistent(db.friendships, db.blocks) {
        DeleteKeepsConsistent(db.friendships, db.blocks, PendingRequest(requestId.value, caller));
      }
      var rows := db.DeleteFriendships(PendingRequest(requestId.value, caller));
      if rows == 0 {
        return Err(NotFound);
      }
      return Ok(200, "declined");
    }

    /** `DELETE /friends/:friendId`: ends an accepted friendship, whichever side sent the request. */
    method RemoveFriend(caller: AccountId, friendId: AccountId) returns (r: Reply<string>)
      requires db.Valid()
      modifies db
      ensures db.Valid()
      ensures old(Consistent(db.friendships, db.blocks)) ==> Consistent(db.friendships, db.blocks)
      ensures db.friendships == Filter(old(db.friendships), FriendshipMatches, AcceptedBetween(caller, friendId), false)
      ensures db.blocks == old(db.blocks)
      ensures r == if forall f :: f in old(db.friendships) ==> !FriendshipMatches(f, AcceptedBetween(caller, friendId))
                   then Err(NotFriends) else Ok(200, "removed")
    {
      if Consistent(db.friendships, db.blocks) {
        DeleteKeepsConsistent(db.friendships, db.blocks, AcceptedBetween(caller, friendId));
      }
      var rows := db.DeleteFriendships(AcceptedBetween(caller, friendId));
      if rows == 0 {
        return Err(NotFriends);
      }
      return Ok(200, "removed");
    }

    /** Used by the blocks handler: deletes every friendship row between `a` and `b`, whatever its status. */
    method RemoveFriendship(a: AccountId, b: AccountId)
      requires db.Valid()
      modifies db
      ensures db.Valid()
      ensures old(Consistent(db.friendships, db.blocks)) ==> Consistent(db.friendships, db.blocks)
      ensures db.friendships == Filter(old(db.friendships), FriendshipMatches, Between(a, b), false)
      ensures forall f :: f in db.friendships ==> !Joins(f, a, b)
      ensures db.blocks == old(db.blocks)
    {
      if Consistent(db.friendships, db.blocks) {
        DeleteKeepsConsistent(db.friendships, db.blocks, Between(a, b));
      }
      var _ := db.DeleteFriendships(Between(a, b));
    }
  }

  /** The other person in a friendship row that involves `caller`. */
  function OtherParty(f: Friendship, caller: AccountId): AccountId
  {
    if f.addresseeId == caller then f.requesterId else f.addresseeId
  }

  /**
   * `GET /friends`: one entry per accepted row involving `caller`, in table
   * order, naming the other party and the time of acceptance.
   */
  function ListFriends(table: seq<Friendship>, caller: AccountId): (r: seq<Friend>)
    ensures |r| <= |table|
    ensures forall k :: 0 <= k < |r| ==> AcceptedSince(table, caller, r[k])
  {
    var rows := Filter(table, FriendshipMatches, AcceptedInvolving(caller), true);
    var r := seq(|rows|, k requires 0 <= k < |rows| => Friend(OtherParty(rows[k], caller), rows[k].updatedAt));
    assert forall k :: 0 <= k < |r| ==> AcceptedSince(table, caller, r[k]) by {
      forall k | 0 <= k < |r| ensures AcceptedSince(table, caller, r[k]) {
        assert rows[k] in rows;
      }
    }
    r
  }

  /** An accepted row links `caller` to `entry`'s account, accepted at `entry`'s time. */
  predicate AcceptedSince(table: seq<Friendship>, caller: AccountId, entry: Friend)
  {
    exists f :: f in table && f.status == Accepted && Joins(f, caller, entry.accountId) && entry.since == f.updatedAt
  }

  /** `x` is named by some entry of the friends list `r`. */
  predicate Listed(r: seq<Friend>, x: AccountId)
  {
    exists k :: 0 <= k < |r| && r[k].accountId == x
  }

  /** `caller` and `x` are linked by an accepted row, whichever of them sent the request. */
  predicate FriendsIn(table: seq<Friendship>, caller: AccountId, x: AccountId)
  {
    exists f :: f in table && f.status == Accepted && Joins(f, caller, x)
  }

  /**
   * The friends list names exactly the accounts linked to `caller` by an
   * accepted row, with one entry per such row.
   */
  lemma ListFriendsExactly(table: seq<Friendship>, caller: AccountId)
    ensures |ListFriends(table, caller)| == |Filter(table, FriendshipMatches, AcceptedInvolving(caller), true)|
    ensures forall x :: Listed(ListFriends(table, caller), x) <==> FriendsIn(table, caller, x)
  {
    var rows := Filter(table, FriendshipMatches, AcceptedInvolving(caller), true);
    var r := ListFriends(table, caller);
    forall x ensures Listed(r, x) <==> FriendsIn(table, caller, x) {
      if FriendsIn(table, caller, x) {
        var f :| f in table && f.status == Accepted && Joins(f, caller, x);
        assert f in rows;
        var k :| 0 <= k < |rows| && rows[k] == f;
        assert r[k].accountId == OtherParty(f, caller) == x;
      }
      if Listed(r, x) {
        var k :| 0 <= k < |r| && r[k].accountId == x;
        assert AcceptedSince(table, caller, r[k]);
      }
    }
  }

  /** Two rows involving `caller` that link different pairs name different other parties. */
  lemma OtherPartiesDiffer(f: Friendship, g: Friendship, caller: AccountId)
    requires FriendshipMatches(f, AcceptedInvolving(caller)) && FriendshipMatches(g, AcceptedInvolving(caller))
    requires DifferentPair(f, g)
    ensures OtherParty(f, caller) != OtherParty(g, caller)
  {
  }

  /** Under the handlers' invariant nobody is listed twice as a friend. */
  lemma ListFriendsDistinct(table: seq<Friendship>, blocks: seq<Block>, caller: AccountId)
    requires Consistent(table, blocks)
    ensures var r := ListFriends(table, caller);
      forall i, j | 0 <= i < j < |r| :: r[i].accountId != r[j].accountId
  {
    var rows := Filter(table, FriendshipMatches, AcceptedInvolving(caller), true);
    FilterPairwise(table, FriendshipMatches, AcceptedInvolving(caller), true, DifferentPair);
    var r := ListFriends(table, caller);
    forall i, j | 0 <= i < j < |r| ensures r[i].accountId != r[j].accountId {
      assert rows[i] in rows && rows[j] in rows;
      OtherPartiesDiffer(rows[i], rows[j], caller);
    }
  }

  /** A pending row as a request view. */
  function RequestView(f: Friendship): FriendRequest
  {
    FriendRequest(f.id, f.requesterId, f.addresseeId, f.createdAt)
  }

  function RequestViews(rows: seq<Friendship>): (r: seq<FriendRequest>)
    ensures |r| == |rows|
    ensures forall q :: q in r <==> exists f :: f in rows && q == RequestView(f)
  {
    var r := seq(|rows|, k requires 0 <= k < |rows| => RequestView(rows[k]));
    assert forall f :: f in rows ==> RequestView(f) in r by {
      forall f | f in rows ensures RequestView(f) in r {
        var k :| 0 <= k < |rows| && rows[k] == f;
        assert r[k] == RequestView(f);
      }
    }
    r
  }

  datatype Requests = Requests(incoming: seq<FriendRequest>, outgoing: seq<FriendRequest>)

  /**
   * `GET /friends/requests`: the pending rows addressed to `caller` (incoming)
   * and those `caller` sent (outgoing), each in table order.
   */
  function ListRequests(table: seq<Friendship>, caller: AccountId): (r: Requests)
    ensures forall q :: q in r.incoming <==> exists f :: f in table && f.status == Pending && f.addresseeId == caller && q == RequestView(f)
    ensures forall q :: q in r.outgoing <==> exists f :: f in table && f.status == Pending && f.requesterId == caller && q == RequestView(f)
    ensures |r.incoming| == |Filter(table, FriendshipMatches, PendingTo(caller), true)|
    ensures |r.outgoing| == |Filter(table, FriendshipMatches, PendingFrom(caller), true)|
  {
    Requests(RequestViews(Filter(table, FriendshipMatches, PendingTo(caller), true)),
             RequestViews(Filter(table, FriendshipMatches, PendingFrom(caller), true)))
  }

  /**
   * Every pending request involving `caller` is listed on exactly one side:
   * incoming if addressed to `caller`, outgoing if sent by `caller`.
   */
  lemma ListRequestsPartition(table: seq<Friendship>, blocks: seq<Block>, caller: AccountId, f: Friendship)
    requires Consistent(table, blocks)
    requires f in table && f.status == Pending && (f.requesterId == caller || f.addresseeId == caller)
    ensures var r := ListRequests(table, caller);
      (RequestView(f) in r.incoming <==> f.addresseeId == caller)
      && (RequestView(f) in r.outgoing <==> f.requesterId == caller)
      && (RequestView(f) in r.incoming <==> RequestView(f) !in r.outgoing)
  {
  }
}
