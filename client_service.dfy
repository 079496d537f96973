/** The server's roster of connected sockets (server/src/services/clientService.ts).
    The JavaScript `Map` is a map from socket id to record together with the
    order in which its keys were first inserted, which is the order in which
    the Map iterates. `Date.now()`/`new Date()` are the `now` parameter, and the
    random client id is the `clientId` parameter. */
module ServerClients {

  datatype ClientType = Admin | Vr

  datatype ConnectedClient = ConnectedClient(
    id: string,
    socketId: string,
    name: string,
    clientType: ClientType,
    lastSeen: int,
    connectedAt: int)

  /** The default `maxAge` of `cleanupStaleConnections`, in milliseconds. */
  const DefaultMaxAge: int := 60000

  ghost predicate Distinct(keys: seq<string>)
  {
    forall i, j :: 0 <= i < j < |keys| ==> keys[i] != keys[j]
  }

  /** The values of `m` visited in the order `keys`. */
  function InOrder(keys: seq<string>, m: map<string, ConnectedClient>): (r: seq<ConnectedClient>)
    ensures (forall k :: k in keys ==> k in m) ==> |r| == |keys|
  {
    if keys == [] then []
    else (if keys[0] in m then [m[keys[0]]] else []) + InOrder(keys[1..], m)
  }

  /** `clients.filter(c => c.type === t)`. */
  function OfType(cs: seq<ConnectedClient>, t: ClientType): (r: seq<ConnectedClient>)
    ensures forall c :: c in r <==> c in cs && c.clientType == t
  {
    if cs == [] then []
    else
      assert cs == [cs[0]] + cs[1..];
      (if cs[0].clientType == t then [cs[0]] else []) + OfType(cs[1..], t)
  }

  /** Since every client is an admin or a VR client, the two filters split the roster. */
  lemma {:induction false} OfTypePartition(cs: seq<ConnectedClient>)
    ensures |OfType(cs, Admin)| + |OfType(cs, Vr)| == |cs|
  {
    if cs != [] {
      OfTypePartition(cs[1..]);
    }
  }

  /** `now - client.lastSeen > maxAge`: strictly older than the limit. */
  predicate IsStale(c: ConnectedClient, now: int, maxAge: int)
  {
    now - c.lastSeen > maxAge
  }

  /** The keys, in order, whose clients are stale. */
  function StaleKeys(keys: seq<string>, m: map<string, ConnectedClient>, now: int, maxAge: int): (r: seq<string>)
    ensures forall k :: k in r <==> k in keys && k in m && IsStale(m[k], now, maxAge)
  {
    if keys == [] then []
    else
      assert keys == [keys[0]] + keys[1..];
      (if keys[0] in m && IsStale(m[keys[0]], now, maxAge) then [keys[0]] else [])
        + StaleKeys(keys[1..], m, now, maxAge)
  }

  /** The keys, in order, that are not in `drop`. */
  function KeysNotIn(keys: seq<string>, drop: set<string>): (r: seq<string>)
    ensures forall k :: k in r <==> k in keys && k !in drop
    ensures |r| <= |keys|
  {
    if keys == [] then []
    else
      assert keys == [keys[0]] + keys[1..];
      (if keys[0] in drop then [] else [keys[0]]) + KeysNotIn(keys[1..], drop)
  }

  lemma {:induction false} KeysNotInDistinct(keys: seq<string>, drop: set<string>)
    requires Distinct(keys)
    ensures Distinct(KeysNotIn(keys, drop))
  {
    if keys != [] {
      KeysNotInDistinct(keys[1..], drop);
      assert keys[0] !in keys[1..];
    }
  }

  lemma {:induction false} KeysNotInConcat(a: seq<string>, b: seq<string>, drop: set<string>)
    ensures KeysNotIn(a + b, drop) == KeysNotIn(a, drop) + KeysNotIn(b, drop)
  {
    if a == [] {
      assert a + b == b;
    } else {
      assert (a + b)[1..] == a[1..] + b;
      KeysNotInConcat(a[1..], b, drop);
    }
  }

  lemma {:induction false} KeysNotInTwice(keys: seq<string>, a: set<string>, b: set<string>)
    ensures KeysNotIn(KeysNotIn(keys, a), b) == KeysNotIn(keys, a + b)
  {
    if keys != [] {
      var head: seq<string> := if keys[0] in a then [] else [keys[0]];
      assert KeysNotIn(keys, a) == head + KeysNotIn(keys[1..], a);
      KeysNotInConcat(head, KeysNotIn(keys[1..], a), b);
      KeysNotInTwice(keys[1..], a, b);
    }
  }

  lemma {:induction false} StaleKeysDistinct(keys: seq<string>, m: map<string, ConnectedClient>, now: int, maxAge: int)
    requires Distinct(keys)
    ensures Distinct(StaleKeys(keys, m, now, maxAge))
  {
    if keys != [] {
      StaleKeysDistinct(keys[1..], m, now, maxAge);
      assert keys[0] !in keys[1..];
    }
  }

  lemma StaleKeysPrefix(keys: seq<string>, m: map<string, ConnectedClient>, now: int, maxAge: int, i: nat)
    requires i < |keys|
    ensures StaleKeys(keys[..i + 1], m, now, maxAge)
         == StaleKeys(keys[..i], m, now, maxAge)
            + (if keys[i] in m && IsStale(m[keys[i]], now, maxAge) then [keys[i]] else [])
  {
    StaleKeysConcat(keys[..i], [keys[i]], m, now, maxAge);
    assert keys[..i + 1] == keys[..i] + [keys[i]];
  }

  lemma {:induction false} StaleKeysConcat(a: seq<string>, b: seq<string>, m: map<string, ConnectedClient>, now: int, maxAge: int)
    ensures StaleKeys(a + b, m, now, maxAge) == StaleKeys(a, m, now, maxAge) + StaleKeys(b, m, now, maxAge)
  {
    if a == [] {
      assert a + b == b;
    } else {
      assert (a + b)[1..] == a[1..] + b;
      StaleKeysConcat(a[1..], b, m, now, maxAge);
    }
  }

  /** The set of keys a sequence lists. */
  function KeySet(keys: seq<string>): set<string>
  {
    set k | k in keys
  }

  /** A sequence of distinct keys has as many elements as the set of its keys. */
  lemma {:induction false} DistinctCard(keys: seq<string>)
    requires Distinct(keys)
    ensures |set k | k in keys| == |keys|
  {
    if keys != [] {
      DistinctCard(keys[1..]);
      assert keys[0] !in keys[1..];
      assert (set k | k in keys) == (set k | k in keys[1..]) + {keys[0]};
    }
  }

  /** A map whose keys are exactly a distinct sequence has that sequence's length. */
  lemma MapSize(keys: seq<string>, m: map<string, ConnectedClient>)
    requires Distinct(keys) && forall k :: k in keys <==> k in m
    ensures |m| == |keys|
  {
    DistinctCard(keys);
    assert m.Keys == set k | k in keys;
  }

  class ClientService {
    var clients: map<string, ConnectedClient>
    var order: seq<string>

    /** `order` lists each key of `clients` once, and each record sits under its own socket id. */
    ghost predicate Valid()
      reads this
    {
      && Distinct(order)
      && (forall k :: k in order <==> k in clients)
      && (forall k :: k in clients ==> clients[k].socketId == k)
    }

    /** The records in the Map's iteration order (`Array.from(clients.values())`). */
    function Roster(): (r: seq<ConnectedClient>)
      requires Valid()
      reads this
      ensures |r| == |clients|
      ensures forall c :: c in r <==> c in clients.Values
    {
      InOrderValues(order, clients);
      MapSize(order, clients);
      InOrder(order, clients)
    }

    constructor ()
      ensures Valid() && clients == map[] && order == []
    {
      clients := map[];
      order := [];
    }

    /** `registerClient`: the record is stored under the socket id, replacing any
        record already there (which keeps its place in the iteration order). */
    method RegisterClient(socketId: string, name: string, clientType: ClientType, clientId: string, now: int)
      returns (client: ConnectedClient)
      requires Valid()
      modifies this
      ensures Valid()
      ensures client == ConnectedClient(clientId, socketId, name, clientType, now, now)
      ensures clients == old(clients)[socketId := client]
      ensures order == if socketId in old(clients) then old(order) else old(order) + [socketId]
    {
      client := ConnectedClient(clientId, socketId, name, clientType, now, now);
      if socketId !in clients {
        order := order + [socketId];
      }
      clients := clients[socketId := client];
    }

    /** `updateLastSeen`: an unknown socket changes nothing; a known one only its `lastSeen`. */
    method UpdateLastSeen(socketId: string, now: int)
      requires Valid()
      modifies this
      ensures Valid() && order == old(order)
      ensures socketId !in old(clients) ==> clients == old(clients)
      ensures socketId in old(clients) ==>
                clients == old(clients)[socketId := old(clients)[socketId].(lastSeen := now)]
    {
      if socketId in clients {
        clients := clients[socketId := clients[socketId].(lastSeen := now)];
      }
    }

    /** `removeClient`: deletes only that socket's entry. */
    method RemoveClient(socketId: string)
      requires Valid()
      modifies this
      ensures Valid()
      ensures clients == old(clients) - {socketId}
      ensures order == KeysNotIn(old(order), {socketId})
    {
      if socketId in clients {
        KeysNotInDistinct(order, {socketId});
        clients := clients - {socketId};
        order := KeysNotIn(order, {socketId});
      } else {
        assert socketId !in order;
        KeysNotInNone(order, {socketId});
      }
    }

    /** `getConnectedClients`. */
    method GetConnectedClients() returns (r: seq<ConnectedClient>)
      requires Valid()
      ensures r == Roster()
      ensures |r| == |clients|
      ensures forall c :: c in r <==> c in clients.Values
    {
      r := InOrder(order, clients);
    }

    /** `getClientsByType`: exactly the clients of type `t`, in iteration order. */
    method GetClientsByType(t: ClientType) returns (r: seq<ConnectedClient>)
      requires Valid()
      ensures r == OfType(Roster(), t)
      ensures forall c :: c in r <==> c in clients.Values && c.clientType == t
    {
      r := OfType(InOrder(order, clients), t);
      InOrderValues(order, clients);
    }

    /** `getClientCount`: the two counts add up to the roster's size. */
    method GetClientCount() returns (admin: nat, vr: nat, total: nat)
      requires Valid()
      ensures admin == |OfType(Roster(), Admin)| && vr == |OfType(Roster(), Vr)|
      ensures total == admin + vr
      ensures total == |clients|
    {
      var all := InOrder(order, clients);
      admin := |OfType(all, Admin)|;
      vr := |OfType(all, Vr)|;
      total := admin + vr;
      OfTypePartition(all);
      MapSize(order, clients);
    }

    /** `cleanupStaleConnections`: removes exactly the clients last seen strictly
        more than `maxAge` ago and returns how many went. */
    method CleanupStaleConnections(now: int, maxAge: int) returns (removed: nat)
      requires Valid()
      modifies this
      ensures Valid()
      ensures clients == FreshPart(old(clients), now, maxAge)
      ensures order == KeysNotIn(old(order), StaleSet(old(clients), now, maxAge))
      ensures forall k :: k in clients ==> now - clients[k].lastSeen <= maxAge
      ensures removed == |old(clients)| - |clients|
    {
      var stale := CollectStale(order, clients, now, maxAge);
      StaleKeysAreStaleSet(order, clients, now, maxAge);
      CleanupCount(order, clients, now, maxAge);
      FreshPartIsDifference(clients, now, maxAge);
      CleanupKeepsOrderValid(order, clients, now, maxAge);
      DeleteAll(stale);
      removed := |stale|;
    }

    /** `cleanupStaleConnections()` with the default age of one minute. */
    method CleanupStaleConnectionsDefault(now: int) returns (removed: nat)
      requires Valid()
      modifies this
      ensures Valid()
      ensures clients == FreshPart(old(clients), now, DefaultMaxAge)
      ensures order == KeysNotIn(old(order), StaleSet(old(clients), now, DefaultMaxAge))
      ensures forall k :: k in clients ==> now - clients[k].lastSeen <= 60000
      ensures removed == |old(clients)| - |clients|
    {
      removed := CleanupStaleConnections(now, DefaultMaxAge);
    }

    /** The second pass of `cleanupStaleConnections`: delete each listed key. */
    method DeleteAll(keys: seq<string>)
      modifies this
      ensures clients == old(clients) - KeySet(keys)
      ensures order == KeysNotIn(old(order), KeySet(keys))
    {
      assert KeySet(keys[..0]) == {};
      assert clients - {} == clients;
      KeysNotInNone(order, {});
      var j := 0;
      while j < |keys|
        invariant 0 <= j <= |keys|
        invariant clients == old(clients) - KeySet(keys[..j])
        invariant order == KeysNotIn(old(order), KeySet(keys[..j]))
      {
        assert KeySet(keys[..j + 1]) == KeySet(keys[..j]) + {keys[j]};
        KeysNotInTwice(old(order), KeySet(keys[..j]), {keys[j]});
        clients := clients - {keys[j]};
        order := KeysNotIn(order, {keys[j]});
        j := j + 1;
      }
      assert keys[..j] == keys;
    }
  }

  /** The first pass of `cleanupStaleConnections`: the stale keys in iteration order. */
  method CollectStale(keys: seq<string>, m: map<string, ConnectedClient>, now: int, maxAge: int)
    returns (stale: seq<string>)
    requires forall k :: k in keys ==> k in m
    ensures stale == StaleKeys(keys, m, now, maxAge)
  {
    stale := [];
    var i := 0;
    while i < |keys|
      invariant 0 <= i <= |keys|
      invariant stale == StaleKeys(keys[..i], m, now, maxAge)
    {
      StaleKeysPrefix(keys, m, now, maxAge, i);
      if IsStale(m[keys[i]], now, maxAge) {
        stale := stale + [keys[i]];
      }
      i := i + 1;
    }
    assert keys[..i] == keys;
  }

  /** The socket ids whose clients are stale. */
  ghost function StaleSet(m: map<string, ConnectedClient>, now: int, maxAge: int): set<string>
  {
    set k | k in m && IsStale(m[k], now, maxAge)
  }

  /** The roster restricted to the clients that are not stale. */
  ghost function FreshPart(m: map<string, ConnectedClient>, now: int, maxAge: int): map<string, ConnectedClient>
  {
    map k | k in m && !IsStale(m[k], now, maxAge) :: m[k]
  }

  lemma StaleKeysAreStaleSet(keys: seq<string>, m: map<string, ConnectedClient>, now: int, maxAge: int)
    requires forall k :: k in keys <==> k in m
    ensures KeySet(StaleKeys(keys, m, now, maxAge)) == StaleSet(m, now, maxAge)
  {
  }

  lemma FreshPartIsDifference(m: map<string, ConnectedClient>, now: int, maxAge: int)
    ensures m - StaleSet(m, now, maxAge) == FreshPart(m, now, maxAge)
  {
  }

  /** The staleness test is strict: a client last seen exactly `maxAge` ago
      stays, one a millisecond older goes. */
  lemma CleanupBoundary(m: map<string, ConnectedClient>, now: int, maxAge: int, k: string)
    requires k in m
    ensures now - m[k].lastSeen == maxAge ==> k in FreshPart(m, now, maxAge) && FreshPart(m, now, maxAge)[k] == m[k]
    ensures now - m[k].lastSeen == maxAge + 1 ==> k !in FreshPart(m, now, maxAge) && k in StaleSet(m, now, maxAge)
  {
  }

  /** As many entries go as there are stale keys. */
  lemma CleanupCount(keys: seq<string>, m: map<string, ConnectedClient>, now: int, maxAge: int)
    requires Distinct(keys) && forall k :: k in keys <==> k in m
    ensures |StaleKeys(keys, m, now, maxAge)| == |m| - |m - StaleSet(m, now, maxAge)|
  {
    var stale := StaleKeys(keys, m, now, maxAge);
    var gone := StaleSet(m, now, maxAge);
    StaleKeysAreStaleSet(keys, m, now, maxAge);
    StaleKeysDistinct(keys, m, now, maxAge);
    DistinctCard(stale);
    assert |gone| == |stale|;
    assert gone <= m.Keys;
    assert (m - gone).Keys == m.Keys - gone;
  }

  /** The surviving key order still lists each surviving key once. */
  lemma CleanupKeepsOrderValid(keys: seq<string>, m: map<string, ConnectedClient>, now: int, maxAge: int)
    requires Distinct(keys) && forall k :: k in keys <==> k in m
    ensures Distinct(KeysNotIn(keys, StaleSet(m, now, maxAge)))
    ensures forall k :: k in KeysNotIn(keys, StaleSet(m, now, maxAge)) <==> k in m - StaleSet(m, now, maxAge)
  {
    KeysNotInDistinct(keys, StaleSet(m, now, maxAge));
  }

  /* Helpers for the loops above. */

  lemma {:induction false} InOrderValues(keys: seq<string>, m: map<string, ConnectedClient>)
    requires forall k :: k in keys <==> k in m
    ensures forall c :: c in InOrder(keys, m) <==> c in m.Values
  {
    forall c | c in m.Values ensures c in InOrder(keys, m) {
      var k :| k in m && m[k] == c;
      InOrderHas(keys, m, k);
    }
    forall c | c in InOrder(keys, m) ensures c in m.Values {
      InOrderFrom(keys, m, c);
    }
  }

  lemma {:induction false} InOrderHas(keys: seq<string>, m: map<string, ConnectedClient>, k: string)
    requires k in keys && k in m
    ensures m[k] in InOrder(keys, m)
  {
    if keys[0] != k {
      InOrderHas(keys[1..], m, k);
    }
  }

  lemma {:induction false} InOrderFrom(keys: seq<string>, m: map<string, ConnectedClient>, c: ConnectedClient)
    requires c in InOrder(keys, m)
    ensures c in m.Values
  {
    if keys != [] {
      if keys[0] in m && c == m[keys[0]] {
      } else {
        InOrderFrom(keys[1..], m, c);
      }
    }
  }

  lemma {:induction false} KeysNotInNone(keys: seq<string>, drop: set<string>)
    requires forall k :: k in keys ==> k !in drop
    ensures KeysNotIn(keys, drop) == keys
  {
    if keys != [] {
      KeysNotInNone(keys[1..], drop);
    }
  }
}
