/**
 * The two tables of the relationship store, `friendships` and `blocks`, with
 * the SQL `WHERE` clauses the handlers use as predicates on rows, and the row
 * operations the handlers issue (insert, update by primary key, delete where).
 * The unique indexes created in internal/database/database.go (primary key
 * `id`, and the pairs `(requester_id, addressee_id)` and `(blocker_id,
 * blocked_id)`) are the invariant `Db.Valid()`.
 */
module Database {
  import opened Wrappers
  import opened Models

  /** The `WHERE` clauses used on the `friendships` table. */
  datatype FriendshipWhere =
    | PendingRequest(id: RowId, addressee: AccountId)   // id = ? AND addressee_id = ? AND status = pending
    | Between(a: AccountId, b: AccountId)               // a→b or b→a, any status
    | AcceptedBetween(a: AccountId, b: AccountId)       // a→b or b→a, and status = accepted
    | AcceptedInvolving(a: AccountId)                   // (requester_id = a OR addressee_id = a) AND accepted
    | PendingTo(a: AccountId)                           // addressee_id = a AND status = pending
    | PendingFrom(a: AccountId)                         // requester_id = a AND status = pending

  predicate Joins(f: Friendship, a: AccountId, b: AccountId)
  {
    (f.requesterId == a && f.addresseeId == b) || (f.requesterId == b && f.addresseeId == a)
  }

  predicate FriendshipMatches(f: Friendship, w: FriendshipWhere)
  {
    match w
    case PendingRequest(id, addressee) => f.id == id && f.addresseeId == addressee && f.status == Pending
    case Between(a, b) => Joins(f, a, b)
    case AcceptedBetween(a, b) => Joins(f, a, b) && f.status == Accepted
    case AcceptedInvolving(a) => (f.requesterId == a || f.addresseeId == a) && f.status == Accepted
    case PendingTo(a) => f.addresseeId == a && f.status == Pending
    case PendingFrom(a) => f.requesterId == a && f.status == Pending
  }

  /** The `WHERE` clauses used on the `blocks` table. */
  datatype BlockWhere =
    | Pair(blocker: AccountId, blocked: AccountId)        // blocker_id = ? AND blocked_id = ?
    | EitherWay(a: AccountId, b: AccountId)               // a blocked b, or b blocked a
    | ByBlocker(blocker: AccountId)                       // blocker_id = ?

  predicate BlockMatches(b: Block, w: BlockWhere)
  {
    match w
    case Pair(blocker, blocked) => b.blockerId == blocker && b.blockedId == blocked
    case EitherWay(x, y) => (b.blockerId == x && b.blockedId == y) || (b.blockerId == y && b.blockedId == x)
    case ByBlocker(blocker) => b.blockerId == blocker
  }

  /**
   * The rows of `rows`, in table order, for which `holds(row, clause)` equals
   * `want`: a `SELECT ... WHERE` with `want`, the rows a `DELETE ... WHERE`
   * keeps with `!want`.
   */
  function Filter<T(!new), C>(rows: seq<T>, holds: (T, C) -> bool, clause: C, want: bool): (r: seq<T>)
    ensures |r| <= |rows|
    ensures forall x :: x in r <==> x in rows && holds(x, clause) == want
    ensures (forall x :: x in rows ==> holds(x, clause) == want) ==> r == rows
    ensures r == [] <==> forall x :: x in rows ==> holds(x, clause) != want
  {
    if rows == [] then []
    else
      (if holds(rows[0], clause) == want then [rows[0]] else [])
      + Filter(rows[1..], holds, clause, want)
  }

  /** Every selected row is matched, and every row is either selected or kept by the matching delete. */
  lemma {:induction false} FilterSplits<T(!new), C>(rows: seq<T>, holds: (T, C) -> bool, clause: C)
    ensures |Filter(rows, holds, clause, true)| + |Filter(rows, holds, clause, false)| == |rows|
  {
    if rows != [] {
      FilterSplits(rows[1..], holds, clause);
    }
  }

  /** First row in table order for which `holds(row, clause)`: what a `Scan` into one record reads. */
  function First<T(!new), C>(rows: seq<T>, holds: (T, C) -> bool, clause: C): (r: Option<T>)
    ensures r.None? <==> forall x :: x in rows ==> !holds(x, clause)
    ensures r.Some? ==> r.value in rows && holds(r.value, clause)
    ensures r.Some? ==> exists k :: 0 <= k < |rows| && rows[k] == r.value && forall j :: 0 <= j < k ==> !holds(rows[j], clause)
  {
    if rows == [] then None
    else if holds(rows[0], clause) then Some(rows[0])
    else
      var r := First(rows[1..], holds, clause);
      assert r.Some? ==> exists k :: 1 <= k < |rows| && rows[k] == r.value && forall j :: 0 <= j < k ==> !holds(rows[j], clause) by {
        if r.Some? {
          var k :| 0 <= k < |rows[1..]| && rows[1..][k] == r.value && forall j :: 0 <= j < k ==> !holds(rows[1..][j], clause);
          assert rows[k + 1] == r.value;
          forall j | 0 <= j < k + 1 ensures !holds(rows[j], clause) {
            if j > 0 { assert rows[j] == rows[1..][j - 1]; }
          }
        }
      }
      r
  }

  /** `rel` holds of every two rows, the earlier one first. */
  ghost predicate Pairwise<T>(rows: seq<T>, rel: (T, T) -> bool)
  {
    forall i, j | 0 <= i < j < |rows| :: rel(rows[i], rows[j])
  }

  /** A delete keeps a pairwise property of the table. */
  lemma {:induction false} FilterPairwise<T(!new), C>(rows: seq<T>, holds: (T, C) -> bool, clause: C, want: bool, rel: (T, T) -> bool)
    requires Pairwise(rows, rel)
    ensures Pairwise(Filter(rows, holds, clause, want), rel)
  {
    if rows != [] {
      var rest := rows[1..];
      assert Pairwise(rest, rel) by {
        forall i, j | 0 <= i < j < |rest| ensures rel(rest[i], rest[j]) {
          assert rest[i] == rows[i + 1] && rest[j] == rows[j + 1];
        }
      }
      FilterPairwise(rest, holds, clause, want, rel);
      var tail := Filter(rest, holds, clause, want);
      if holds(rows[0], clause) == want {
        var r := [rows[0]] + tail;
        forall i, j | 0 <= i < j < |r| ensures rel(r[i], r[j]) {
          if i == 0 {
            assert r[j] == tail[j - 1] && tail[j - 1] in rest;
            var k :| 0 <= k < |rest| && rest[k] == tail[j - 1];
            assert rest[k] == rows[k + 1];
          } else {
            assert r[i] == tail[i - 1] && r[j] == tail[j - 1];
          }
        }
      }
    }
  }

  /** An insert keeps a pairwise property when the new row is related to every old one. */
  lemma AppendPairwise<T>(rows: seq<T>, x: T, rel: (T, T) -> bool)
    requires Pairwise(rows, rel)
    requires forall y :: y in rows ==> rel(y, x)
    ensures Pairwise(rows + [x], rel)
  {
    var r := rows + [x];
    forall i, j | 0 <= i < j < |r| ensures rel(r[i], r[j]) {
      if j == |rows| { assert r[i] in rows; } else { assert r[i] == rows[i] && r[j] == rows[j]; }
    }
  }

  /** Two friendship rows may share neither the primary key nor the (requester, addressee) pair. */
  predicate FriendshipKeysDiffer(f: Friendship, g: Friendship)
  {
    f.id != g.id && (f.requesterId != g.requesterId || f.addresseeId != g.addresseeId)
  }

  /** Two block rows may share neither the primary key nor the (blocker, blocked) pair. */
  predicate BlockKeysDiffer(b: Block, c: Block)
  {
    b.id != c.id && (b.blockerId != c.blockerId || b.blockedId != c.blockedId)
  }

  class Db {
    var friendships: seq<Friendship>
    var blocks: seq<Block>

    /** The unique indexes of both tables. */
    ghost predicate Valid()
      reads this
    {
      Pairwise(friendships, FriendshipKeysDiffer) && Pairwise(blocks, BlockKeysDiffer)
    }

    /** The tables after the migration: empty. */
    constructor ()
      ensures Valid()
      ensures friendships == [] && blocks == []
    {
      friendships, blocks := [], [];
    }

    /** `INSERT` into `friendships`; refused when the row would break a unique index. */
    method InsertFriendship(f: Friendship) returns (ok: bool)
      requires Valid()
      modifies this
      ensures Valid()
      ensures ok <==> forall g :: g in old(friendships) ==> FriendshipKeysDiffer(g, f)
      ensures friendships == if ok then old(friendships) + [f] else old(friendships)
      ensures blocks == old(blocks)
      ensures !ok ==> unchanged(this)
    {
      ok := forall i | 0 <= i < |friendships| :: FriendshipKeysDiffer(friendships[i], f);
      if ok {
        AppendPairwise(friendships, f, FriendshipKeysDiffer);
        friendships := friendships + [f];
      }
    }

    /**
     * `UPDATE ... WHERE id = f.id` with every column set from `f`. The row's
     * pair is not changed by the one caller, so the indexes stay satisfied.
     */
    method UpdateFriendship(f: Friendship)
      requires Valid()
      requires forall g :: g in friendships && g.id == f.id ==> g.requesterId == f.requesterId && g.addresseeId == f.addresseeId
      modifies this
      ensures Valid()
      ensures |friendships| == |old(friendships)|
      ensures forall i :: 0 <= i < |friendships| ==>
        friendships[i] == if old(friendships)[i].id == f.id then f else old(friendships)[i]
      ensures blocks == old(blocks)
    {
      friendships := seq(|friendships|, i requires 0 <= i < |friendships| reads this =>
        if friendships[i].id == f.id then f else friendships[i]);
      assert forall i :: 0 <= i < |friendships| ==>
        friendships[i].id == old(friendships)[i].id
        && friendships[i].requesterId == old(friendships)[i].requesterId
        && friendships[i].addresseeId == old(friendships)[i].addresseeId;
    }

    /** `DELETE FROM friendships WHERE w`; returns the number of rows affected. */
    method DeleteFriendships(w: FriendshipWhere) returns (affected: nat)
      requires Valid()
      modifies this
      ensures Valid()
      ensures friendships == Filter(old(friendships), FriendshipMatches, w, false)
      ensures affected == |Filter(old(friendships), FriendshipMatches, w, true)|
      ensures affected == 0 <==> forall f :: f in old(friendships) ==> !FriendshipMatches(f, w)
      ensures blocks == old(blocks)
    {
      FilterSplits(friendships, FriendshipMatches, w);
      FilterPairwise(friendships, FriendshipMatches, w, false, FriendshipKeysDiffer);
      affected := |Filter(friendships, FriendshipMatches, w, true)|;
      friendships := Filter(friendships, FriendshipMatches, w, false);
    }

    /** `INSERT` into `blocks`; refused when the row would break a unique index. */
    method InsertBlock(b: Block) returns (ok: bool)
      requires Valid()
      modifies this
      ensures Valid()
      ensures ok <==> forall c :: c in old(blocks) ==> BlockKeysDiffer(c, b)
      ensures blocks == if ok then old(blocks) + [b] else old(blocks)
      ensures friendships == old(friendships)
      ensures !ok ==> unchanged(this)
    {
      ok := forall i | 0 <= i < |blocks| :: BlockKeysDiffer(blocks[i], b);
      if ok {
        AppendPairwise(blocks, b, BlockKeysDiffer);
        blocks := blocks + [b];
      }
    }

    /** `DELETE FROM blocks WHERE w`; returns the number of rows affected. */
    method DeleteBlocks(w: BlockWhere) returns (affected: nat)
      requires Valid()
      modifies this
      ensures Valid()
      ensures blocks == Filter(old(blocks), BlockMatches, w, false)
      ensures affected == |Filter(old(blocks), BlockMatches, w, true)|
      ensures affected == 0 <==> forall b :: b in old(blocks) ==> !BlockMatches(b, w)
      ensures friendships == old(friendships)
    {
      FilterPairwise(blocks, BlockMatches, w, false, BlockKeysDiffer);
      affected := |Filter(blocks, BlockMatches, w, true)|;
      blocks := Filter(blocks, BlockMatches, w, false);
    }
  }
}
