/**
 * The records of the relationship store and the client-facing views built
 * from them, as declared in internal/models/models.go, and the error reply
 * every handler uses.
 */
module Models {
  import opened Uuids

  type AccountId = Uuid
  type RowId = Uuid

  /** A `time.Time` instant; only equality and the value read from the clock matter. */
  type Time = int

  datatype FriendshipStatus = Pending | Accepted

  datatype Friendship = Friendship(
    id: RowId,
    requesterId: AccountId,
    addresseeId: AccountId,
    status: FriendshipStatus,
    createdAt: Time,
    updatedAt: Time)

  datatype Block = Block(id: RowId, blockerId: AccountId, blockedId: AccountId, createdAt: Time)

  /** The other person in an accepted friendship. */
  datatype Friend = Friend(accountId: AccountId, since: Time)

  /** A pending friendship as shown to either party. */
  datatype FriendRequest = FriendRequest(id: RowId, fromAccountId: AccountId, toAccountId: AccountId, createdAt: Time)

  datatype BlockedUser = BlockedUser(accountId: AccountId, since: Time)

  /** An HTTP error status with its `error` code. */
  datatype ErrorResponse = ErrorResponse(status: int, error: string)

  /** What a handler writes back: a success status with its body, or an error. */
  datatype Reply<+T> = Ok(status: int, body: T) | Err(response: ErrorResponse)

  /** The error replies more than one handler writes. */
  const InvalidRequest := ErrorResponse(400, "invalid_request")
  const CreationFailed := ErrorResponse(500, "creation_failed")
  const NotFound := ErrorResponse(404, "not_found")
}
