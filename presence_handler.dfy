/**
 * The presence endpoints of internal/presence/handler.go: the WebSocket
 * session (token checks, register, read loop, deferred cleanup) as a small
 * state machine driving the hub, and the three query endpoints that delegate
 * to it.
 *
 * The token's validation, the UUID parsing of path parameters and JSON
 * binding are foreign code; their outcomes are inputs. The read loop is given
 * the sequence of outcomes of `ReadMessage`, which ends in an error.
 */
module PresenceHandler {
  import opened Wrappers
  import opened Uuids
  import opened Models
  import opened Presence

  const MissingToken := ErrorResponse(401, "missing_token")
  const InvalidToken := ErrorResponse(401, "invalid_token")
  const InvalidId := ErrorResponse(400, "invalid_id")

  /** The states of one connection's session. */
  datatype Phase = Connecting | Serving | Terminating | Closed

  /** What a session has done, in order. */
  datatype Event = DidRegister | DiscardedFrame | DidUnregister | DidClose

  /** One outcome of `ReadMessage`: a frame, which is discarded, or an error. */
  datatype ReadOutcome = Frame | ReadError

  /** Position of the first error among the read outcomes. */
  function FirstError(outcomes: seq<ReadOutcome>): (k: nat)
    requires ReadError in outcomes
    ensures k < |outcomes| && outcomes[k] == ReadError
    ensures forall j :: 0 <= j < k ==> outcomes[j] == Frame
  {
    if outcomes[0] == ReadError then 0 else 1 + FirstError(outcomes[1..])
  }

  function Discards(n: nat): (r: seq<Event>)
    ensures |r| == n && forall e :: e in r ==> e == DiscardedFrame
  {
    seq(n, _ => DiscardedFrame)
  }

  lemma DiscardsStep(n: nat)
    ensures Discards(n + 1) == Discards(n) + [DiscardedFrame]
  {
  }

  /** The whole event history of a session whose read loop ran `n` frames before failing. */
  function Lifetime(n: nat): seq<Event>
  {
    [DidRegister] + Discards(n) + [DidUnregister, DidClose]
  }

  function Count(events: seq<Event>, e: Event): nat
  {
    if events == [] then 0 else (if events[0] == e then 1 else 0) + Count(events[1..], e)
  }

  lemma {:induction false} CountConcat(a: seq<Event>, b: seq<Event>, e: Event)
    ensures Count(a + b, e) == Count(a, e) + Count(b, e)
    decreases |a|
  {
    if a != [] {
      assert (a + b)[1..] == a[1..] + b;
      CountConcat(a[1..], b, e);
    } else {
      assert a + b == b;
    }
  }

  lemma {:induction false} CountAbsent(events: seq<Event>, e: Event)
    requires e !in events
    ensures Count(events, e) == 0
    decreases |events|
  {
    if events != [] {
      CountAbsent(events[1..], e);
    }
  }

  /**
   * A session registers once, then unregisters exactly once and closes its
   * connection exactly once, the unregister coming first and the close last.
   */
  lemma LifetimeCleansUpOnce(n: nat)
    ensures Count(Lifetime(n), DidRegister) == 1
    ensures Count(Lifetime(n), DidUnregister) == 1
    ensures Count(Lifetime(n), DidClose) == 1
    ensures Lifetime(n)[0] == DidRegister
    ensures Lifetime(n)[|Lifetime(n)| - 2] == DidUnregister && Lifetime(n)[|Lifetime(n)| - 1] == DidClose
  {
    var d := Discards(n);
    CountAbsent(d, DidRegister);
    CountAbsent(d, DidUnregister);
    CountAbsent(d, DidClose);
    CountConcat([DidRegister], d, DidRegister);
    CountConcat([DidRegister], d, DidUnregister);
    CountConcat([DidRegister], d, DidClose);
    CountConcat([DidRegister] + d, [DidUnregister, DidClose], DidRegister);
    CountConcat([DidRegister] + d, [DidUnregister, DidClose], DidUnregister);
    CountConcat([DidRegister] + d, [DidUnregister, DidClose], DidClose);
  }

  /** The goroutine serving one upgraded connection. */
  class Session {
    const hub: Hub
    const account: AccountId
    const conn: ConnId
    var phase: Phase
    var log: seq<Event>

    constructor (hub: Hub, account: AccountId, conn: ConnId)
      ensures this.hub == hub && this.account == account && this.conn == conn
      ensures phase == Connecting && log == []
    {
      this.hub, this.account, this.conn := hub, account, conn;
      phase, log := Connecting, [];
    }

    /** `hub.Register(accountID, conn)`, before the read loop starts. */
    method Start(env: Surroundings)
      requires phase == Connecting
      modifies this, hub
      ensures phase == Serving && log == old(log) + [DidRegister]
      ensures hub.connections == old(hub.connections)[account := conn]
      ensures hub.closed == if account in old(hub.connections) then old(hub.closed) + {old(hub.connections)[account]} else old(hub.closed)
      ensures hub.outbox == old(hub.outbox) + Notifications(env, hub.connections, account, FriendOnline)
      ensures old(hub.Valid()) && conn !in old(hub.closed) && conn !in old(hub.connections).Values ==> hub.Valid()
    {
      hub.Register(account, conn, env);
      phase, log := Serving, log + [DidRegister];
    }

    /**
     * The read loop, then the deferred cleanup: frames are read and discarded
     * until a read fails; then the account is unregistered (by account id,
     * whatever connection is registered for it now) and the connection closed.
     */
    method Run(outcomes: seq<ReadOutcome>, env: Surroundings)
      requires phase == Serving && ReadError in outcomes
      modifies this, hub
      ensures phase == Closed
      ensures log == old(log) + Discards(FirstError(outcomes)) + [DidUnregister, DidClose]
      ensures hub.connections == old(hub.connections) - {account}
      ensures hub.closed == old(hub.closed)
      ensures hub.outbox == old(hub.outbox) + Notifications(env, hub.connections, account, FriendOffline)
      ensures old(log) == [DidRegister] ==> log == Lifetime(FirstError(outcomes))
      ensures old(hub.Valid()) ==> hub.Valid()
    {
      var i := 0;
      while outcomes[i] == Frame
        invariant 0 <= i <= FirstError(outcomes)
        invariant log == old(log) + Discards(i)
        modifies this
        decreases |outcomes| - i
      {
        DiscardsStep(i);
        log := log + [DiscardedFrame];
        i := i + 1;
      }
      assert i == FirstError(outcomes);
      phase := Terminating;
      hub.Unregister(account, env);
      // conn.Close()
      log := log + [DidUnregister, DidClose];
      phase := Closed;
    }
  }

  /** What `WebSocket` answers on the HTTP side. */
  datatype Upgrade = Refused(response: ErrorResponse) | UpgradeFailed | Upgraded

  /** `{"account_id": …, "online": …}`. */
  datatype PresenceView = PresenceView(accountId: string, online: bool)

  class Handler {
    const hub: Hub

    constructor (hub: Hub)
      ensures this.hub == hub
    {
      this.hub := hub;
    }

    /**
     * `GET /ws?token=…`. `claims` is the account id the token resolves to
     * (`None` when parsing fails); `connection` is the upgraded connection
     * (`None` when the upgrade fails). On success the returned session is
     * registered and ready to run its read loop.
     */
    method WebSocket(token: string, claims: Option<AccountId>, connection: Option<ConnId>, env: Surroundings)
      returns (reply: Upgrade, session: Session?)
      modifies hub
      ensures token == "" ==> reply == Refused(MissingToken) && session == null && unchanged(hub)
      ensures token != "" && claims.None? ==> reply == Refused(InvalidToken) && session == null && unchanged(hub)
      ensures token != "" && claims.Some? && connection.None? ==> reply == UpgradeFailed && session == null && unchanged(hub)
      ensures token != "" && claims.Some? && connection.Some? ==>
        var account, conn := claims.value, connection.value;
        && reply == Upgraded && session != null && fresh(session)
        && session.hub == hub && session.account == account && session.conn == conn
        && session.phase == Serving && session.log == [DidRegister]
        && hub.connections == old(hub.connections)[account := conn]
        && hub.closed == (if account in old(hub.connections) then old(hub.closed) + {old(hub.connections)[account]} else old(hub.closed))
        && hub.outbox == old(hub.outbox) + Notifications(env, hub.connections, account, FriendOnline)
        && (old(hub.Valid()) && conn !in old(hub.closed) && conn !in old(hub.connections).Values ==> hub.Valid())
    {
      if token == "" {
        return Refused(MissingToken), null;
      }
      if claims.None? {
        return Refused(InvalidToken), null;
      }
      if connection.None? {
        return UpgradeFailed, null;
      }
      session := new Session(hub, claims.value, connection.value);
      session.Start(env);
      reply := Upgraded;
    }

    /** `GET /internal/presence/:userId`. `userId` is the parsed path parameter. */
    method GetPresence(userId: Option<AccountId>) returns (r: Reply<PresenceView>)
      ensures userId.None? ==> r == Err(InvalidId)
      ensures userId.Some? ==> r == Ok(200, PresenceView(UuidString(userId.value), userId.value in hub.connections))
    {
      if userId.None? {
        return Err(InvalidId);
      }
      return Ok(200, PresenceView(UuidString(userId.value), hub.IsOnline(userId.value)));
    }

    /**
     * `POST /internal/presence/bulk`. `accountIds` is the bound body (`None`
     * when binding fails). The answer has one text key per distinct listed
     * account, holding whether it is online.
     */
    method BulkPresence(accountIds: Option<seq<AccountId>>) returns (r: Reply<map<string, bool>>)
      ensures accountIds.None? ==> r == Err(InvalidRequest)
      ensures accountIds.Some? ==> r.Ok? && r.status == 200
      ensures accountIds.Some? ==> r.body.Keys == set a | a in accountIds.value :: UuidString(a)
      ensures accountIds.Some? ==> forall a :: a in accountIds.value ==> r.body[UuidString(a)] == (a in hub.connections)
    {
      if accountIds.None? {
        return Err(InvalidRequest);
      }
      var result := hub.BulkOnline(accountIds.value);
      var presence: map<string, bool> := map[];
      var rest := result.Keys;
      while rest != {}
        invariant rest <= result.Keys
        invariant presence.Keys == set a | a in result.Keys - rest :: UuidString(a)
        invariant forall a :: a in result.Keys - rest ==> presence[UuidString(a)] == result[a]
        decreases rest
      {
        var id :| id in rest;
        forall a | a in result.Keys - rest ensures UuidString(a) != UuidString(id) {
          UuidStringInjective(a, id);
        }
        presence := presence[UuidString(id) := result[id]];
        rest := rest - {id};
      }
      return Ok(200, presence);
    }

    /** `GET /internal/presence/count`. */
    method OnlineCount() returns (r: Reply<nat>)
      ensures r == Ok(200, |hub.connections|)
    {
      return Ok(200, hub.OnlineCount());
    }
  }

  /**
   * One connection from upgrade to close: the session's history is exactly
   * `Lifetime` of the frames read before the failing read, so it registers
   * once, unregisters once and closes once, and the account is offline after.
   */
  method ServeConnection(x: AccountId, c: ConnId, outcomes: seq<ReadOutcome>, env: Surroundings)
    returns (log: seq<Event>, online: bool)
    requires ReadError in outcomes
    ensures log == Lifetime(FirstError(outcomes))
    ensures Count(log, DidRegister) == 1 && Count(log, DidUnregister) == 1 && Count(log, DidClose) == 1
    ensures !online
  {
    var hub := new Hub();
    var handler := new Handler(hub);
    var _, s := handler.WebSocket("t", Some(x), Some(c), env);
    s.Run(outcomes, env);
    log, online := s.log, hub.IsOnline(x);
    LifetimeCleansUpOnce(FirstError(outcomes));
  }

  /**
   * A reconnect as written: X connects on c1, then again on c2 (closing c1);
   * c1's read loop then fails and its cleanup unregisters X by account id,
   * taking away c2's entry. X shows offline although c2's session is still
   * serving and c2 was never closed.
   */
  method SupersededSessionExit(x: AccountId, c1: ConnId, c2: ConnId, env: Surroundings)
    returns (xOnline: bool, c1Closed: bool, c2Closed: bool, secondServing: bool)
    requires c1 != c2
    ensures !xOnline && c1Closed && !c2Closed && secondServing
  {
    var hub := new Hub();
    var handler := new Handler(hub);
    var _, first := handler.WebSocket("t", Some(x), Some(c1), env);
    var _, second := handler.WebSocket("t", Some(x), Some(c2), env);
    first.Run([ReadError], env);
    xOnline := hub.IsOnline(x);
    c1Closed := c1 in hub.closed;
    c2Closed := c2 in hub.closed;
    secondServing := second.phase == Serving;
  }

  /** A failing friend lister does not stop the account from coming online. */
  method OnlineDespiteListerFailure(x: AccountId, c: ConnId, failing: set<ConnId>) returns (online: bool, told: nat)
    ensures online && told == 0
  {
    var hub := new Hub();
    var handler := new Handler(hub);
    var _, s := handler.WebSocket("t", Some(x), Some(c), Surroundings(None, failing));
    online := hub.IsOnline(x);
    told := |hub.outbox|;
  }
}
