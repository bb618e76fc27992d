/**
 * The presence hub of internal/presence/hub.go: the table from account to its
 * live WebSocket connection, the queries on it, and the fan-out that tells an
 * account's online friends when it comes or goes.
 *
 * A connection is an opaque id. Closing one (on reconnect) adds it to
 * `closed`; a write to one appends to `outbox`, unless the connection is one
 * whose writes fail. What the friend lister and the transport answer during an
 * operation is passed in as `Surroundings`, fetched afresh on every
 * notification. Every operation is atomic: the hub's lock is not modelled.
 */
module Presence {
  import opened Wrappers
  import opened Uuids
  import opened Models

  type ConnId = int

  /** The JSON envelope written to a friend's connection. */
  datatype Message = Message(msgType: string, accountId: string)

  const FriendOnline := "friend_online"
  const FriendOffline := "friend_offline"

  /** One successful write of `msg` to `recipient`'s connection `conn`. */
  datatype Delivery = Delivery(recipient: AccountId, conn: ConnId, msg: Message)

  /**
   * The collaborators' answers during one operation: the friend lister's
   * result (`None` when it returns an error) and the connections on which
   * `WriteMessage` fails.
   */
  datatype Surroundings = Surroundings(friendIds: Option<seq<AccountId>>, failingConns: set<ConnId>)

  /**
   * The writes of the fan-out loop over `friendIds`, in list order: one per
   * listed friend that is in `conns` and whose connection accepts the write.
   * A failed write is skipped and the loop goes on.
   */
  function Fanout(friendIds: seq<AccountId>, conns: map<AccountId, ConnId>, failing: set<ConnId>, msg: Message): (r: seq<Delivery>)
    ensures |r| <= |friendIds|
    ensures forall k :: 0 <= k < |r| ==> r[k].msg == msg && r[k].recipient in conns
  {
    if friendIds == [] then []
    else
      var init := Fanout(friendIds[..|friendIds| - 1], conns, failing, msg);
      var f := friendIds[|friendIds| - 1];
      if f in conns && conns[f] !in failing then init + [Delivery(f, conns[f], msg)] else init
  }

  /** The writes `notifyFriends(subject, msgType)` makes; none when the lister fails. */
  function Notifications(env: Surroundings, conns: map<AccountId, ConnId>, subject: AccountId, msgType: string): (r: seq<Delivery>)
    ensures env.friendIds.None? ==> r == []
    ensures env.friendIds.Some? ==> |r| <= |env.friendIds.value|
    ensures forall k :: 0 <= k < |r| ==> r[k].msg == Message(msgType, UuidString(subject)) && r[k].recipient in conns
  {
    match env.friendIds
    case None => []
    case Some(ids) => Fanout(ids, conns, env.failingConns, Message(msgType, UuidString(subject)))
  }

  function Occurrences(ids: seq<AccountId>, a: AccountId): nat
  {
    if ids == [] then 0
    else Occurrences(ids[..|ids| - 1], a) + (if ids[|ids| - 1] == a then 1 else 0)
  }

  function DeliveriesTo(ds: seq<Delivery>, a: AccountId): nat
  {
    if ds == [] then 0
    else DeliveriesTo(ds[..|ds| - 1], a) + (if ds[|ds| - 1].recipient == a then 1 else 0)
  }

  lemma {:induction false} DeliveriesToAppend(ds: seq<Delivery>, d: Delivery, a: AccountId)
    ensures DeliveriesTo(ds + [d], a) == DeliveriesTo(ds, a) + (if d.recipient == a then 1 else 0)
  {
    assert (ds + [d])[..|ds + [d]| - 1] == ds;
  }

  /**
   * Each friend receives one write per time it is listed when it is online
   * and its connection accepts writes, and none otherwise: offline friends
   * and friends whose write fails get nothing, and nobody else is written to.
   */
  lemma {:induction false} FanoutExact(friendIds: seq<AccountId>, conns: map<AccountId, ConnId>, failing: set<ConnId>, msg: Message, a: AccountId)
    ensures DeliveriesTo(Fanout(friendIds, conns, failing, msg), a)
            == if a in conns && conns[a] !in failing then Occurrences(friendIds, a) else 0
    decreases |friendIds|
  {
    if friendIds != [] {
      var init := friendIds[..|friendIds| - 1];
      var f := friendIds[|friendIds| - 1];
      FanoutExact(init, conns, failing, msg, a);
      if f in conns && conns[f] !in failing {
        DeliveriesToAppend(Fanout(init, conns, failing, msg), Delivery(f, conns[f], msg), a);
      }
    }
  }

  /** Every write carries `msg` and goes to a listed, online friend over its registered connection. */
  lemma {:induction false} FanoutSound(friendIds: seq<AccountId>, conns: map<AccountId, ConnId>, failing: set<ConnId>, msg: Message)
    ensures forall d :: d in Fanout(friendIds, conns, failing, msg) ==>
      && d.msg == msg && d.recipient in friendIds && d.recipient in conns
      && d.conn == conns[d.recipient] && d.conn !in failing
    decreases |friendIds|
  {
    if friendIds != [] {
      var init := friendIds[..|friendIds| - 1];
      FanoutSound(init, conns, failing, msg);
      assert forall x :: x in init ==> x in friendIds;
    }
  }

  /**
   * X comes online with friends [Y, Z], Y online and Z not: only Y is told,
   * with the message `{friend_online, X}`.
   */
  lemma OnlyOnlineFriendIsTold(x: AccountId, y: AccountId, z: AccountId, cx: ConnId, cy: ConnId)
    requires y != z && z != x
    ensures Notifications(Surroundings(Some([y, z]), {}), map[x := cx, y := cy], x, FriendOnline)
            == [Delivery(y, cy, Message("friend_online", UuidString(x)))]
  {
    var conns := map[x := cx, y := cy];
    var msg := Message(FriendOnline, UuidString(x));
    assert [y, z][..1] == [y];
    assert [y][..0] == [];
    assert Fanout([y], conns, {}, msg) == [Delivery(y, cy, msg)];
    assert z !in conns;
    assert Fanout([y, z], conns, {}, msg) == [Delivery(y, cy, msg)];
  }

  lemma NoKeys(m: map<AccountId, ConnId>)
    ensures |m| == 0 <==> forall a :: a !in m
  {
    assert |m| == |m.Keys|;
    if |m| != 0 {
      var a :| a in m.Keys;
    } else {
      assert m.Keys == {};
    }
  }

  /** A map that sends no two keys to one value has as many values as keys. */
  lemma {:induction false} InjectiveValues(m: map<AccountId, ConnId>)
    requires forall a, b :: a in m && b in m && a != b ==> m[a] != m[b]
    ensures |m.Values| == |m|
    decreases |m|
  {
    if m != map[] {
      var a :| a in m;
      var rest := m - {a};
      InjectiveValues(rest);
      forall v | v in m.Values ensures v in rest.Values + {m[a]} {
        var b :| b in m && m[b] == v;
        if b != a {
          assert b in rest;
        }
      }
      forall v | v in rest.Values ensures v in m.Values {
        var b :| b in rest && rest[b] == v;
        assert b in m;
      }
      assert m.Values == rest.Values + {m[a]};
      assert m[a] !in rest.Values;
      assert m.Keys == rest.Keys + {a};
      assert |m| == |m.Keys| && |rest| == |rest.Keys|;
    }
  }

  class Hub {
    var connections: map<AccountId, ConnId>
    var closed: set<ConnId>
    var outbox: seq<Delivery>

    /**
     * No registered connection has been closed by the hub, and no connection
     * is registered for two accounts.
     */
    ghost predicate Valid()
      reads this
    {
      && (forall a :: a in connections ==> connections[a] !in closed)
      && (forall a, b :: a in connections && b in connections && a != b ==> connections[a] != connections[b])
    }

    /** `NewHub`: nobody is online. */
    constructor ()
      ensures Valid()
      ensures connections == map[] && closed == {} && outbox == []
      ensures OnlineCount() == 0 && forall a :: !IsOnline(a)
    {
      connections, closed, outbox := map[], {}, [];
    }

    /** `IsOnline`: `account` has a registered connection. */
    function IsOnline(account: AccountId): (r: bool)
      reads this
      ensures r ==> |connections| >= 1
    {
      account in connections
    }

    /** `OnlineCount`: the number of registered connections. */
    function OnlineCount(): (r: nat)
      reads this
      ensures r == 0 <==> forall a :: !IsOnline(a)
    {
      NoKeys(connections);
      assert forall a :: IsOnline(a) == (a in connections);
      |connections|
    }

    /**
     * The count is the number of accounts that are online, and, while no
     * connection is registered twice, the number of open registered connections.
     */
    lemma OnlineCountCountsOnline()
      ensures OnlineCount() == |set a | a in connections && IsOnline(a)|
      ensures Valid() ==> OnlineCount() == |connections.Values|
    {
      assert (set a | a in connections && IsOnline(a)) == connections.Keys;
      if Valid() {
        InjectiveValues(connections);
      }
    }

    /**
     * `Register`: `conn` becomes `account`'s connection, closing the one it
     * replaces, and then the account's friends are told it is online.
     */
    method Register(account: AccountId, conn: ConnId, env: Surroundings)
      modifies this
      ensures connections == old(connections)[account := conn]
      ensures closed == if account in old(connections) then old(closed) + {old(connections)[account]} else old(closed)
      ensures outbox == old(outbox) + Notifications(env, connections, account, FriendOnline)
      ensures IsOnline(account)
      ensures OnlineCount() == old(OnlineCount()) + (if account in old(connections) then 0 else 1)
      ensures old(Valid()) && conn !in old(closed) && conn !in old(connections).Values ==> Valid()
    {
      if account in connections {
        closed := closed + {connections[account]};
      }
      connections := connections[account := conn];
      NotifyFriends(account, FriendOnline, env);
    }

    /**
     * `Unregister`: removes `account`'s entry, whether or not there is one, and
     * then tells the account's friends it is offline, in both cases.
     */
    method Unregister(account: AccountId, env: Surroundings)
      modifies this
      ensures connections == old(connections) - {account}
      ensures closed == old(closed)
      ensures outbox == old(outbox) + Notifications(env, connections, account, FriendOffline)
      ensures !IsOnline(account)
      ensures OnlineCount() == old(OnlineCount()) - (if account in old(connections) then 1 else 0)
      ensures account !in old(connections) ==> connections == old(connections)
      ensures old(Valid()) ==> Valid()
    {
      connections := connections - {account};
      NotifyFriends(account, FriendOffline, env);
    }

    /** `BulkOnline`: for each listed account, once, whether it is online. */
    method BulkOnline(accountIds: seq<AccountId>) returns (r: map<AccountId, bool>)
      ensures r.Keys == set a | a in accountIds
      ensures forall a :: a in r ==> r[a] == IsOnline(a)
      ensures accountIds == [] ==> r == map[]
    {
      r := map[];
      var i := 0;
      while i < |accountIds|
        invariant 0 <= i <= |accountIds|
        invariant r.Keys == set a | a in accountIds[..i]
        invariant forall a :: a in r ==> r[a] == (a in connections)
      {
        var id := accountIds[i];
        assert accountIds[..i + 1] == accountIds[..i] + [id];
        r := r[id := id in connections];
        i := i + 1;
      }
      assert accountIds[..i] == accountIds;
    }

    /** `notifyFriends`: writes `{msgType, subject}` to every listed friend that is online. */
    method NotifyFriends(subject: AccountId, msgType: string, env: Surroundings)
      modifies this`outbox
      ensures outbox == old(outbox) + Notifications(env, connections, subject, msgType)
    {
      if env.friendIds.None? {
        // The lister failed: logged, and nobody is told.
        return;
      }
      var friendIds := env.friendIds.value;
      var msg := Message(msgType, UuidString(subject));
      var i := 0;
      while i < |friendIds|
        invariant 0 <= i <= |friendIds|
        invariant outbox == old(outbox) + Fanout(friendIds[..i], connections, env.failingConns, msg)
      {
        var friend := friendIds[i];
        assert friendIds[..i + 1][..i] == friendIds[..i];
        if friend in connections {
          var conn := connections[friend];
          if conn !in env.failingConns {
            outbox := outbox + [Delivery(friend, conn, msg)];
          }
          // A failed write is logged and the loop goes on.
        }
        i := i + 1;
      }
      assert friendIds[..i] == friendIds;
    }
  }
}
