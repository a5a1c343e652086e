/** The server's registry of clients: ids, entries, and who removes them. */
module Registry {
  import opened Wire

  type ClientId = u64

  /** A control connection, as the coroutine that serves it. */
  type Conn = nat

  /** The object of a client: the id it was given, and its connection. */
  datatype ClientCtrl = ClientCtrl(id: ClientId, conn: Conn, name: bytes)

  // ---- Finding a free id ----

  /** The id `k` steps after `from`, wrapping around after the largest one. */
  function Cyclic(from: ClientId, k: nat): ClientId {
    (from + k) % U64_LIMIT
  }

  /** `id` is the first free one in cyclic order from `from`, `k` steps away. */
  ghost predicate IsFirstFree(used: set<ClientId>, from: ClientId, k: nat, id: ClientId) {
    && id == Cyclic(from, k) && id !in used
    && forall j: nat | j < k :: Cyclic(from, j) in used
  }

  lemma FirstFreeIsUnique(used: set<ClientId>, from: ClientId, k: nat, id: ClientId, k': nat, id': ClientId)
    requires IsFirstFree(used, from, k, id) && IsFirstFree(used, from, k', id')
    ensures k == k' && id == id'
  {
  }

  /** The ids met in the first `k` steps. */
  ghost function Probed(from: ClientId, k: nat): set<ClientId> {
    if k == 0 then {} else Probed(from, k - 1) + {Cyclic(from, k - 1)}
  }

  lemma {:induction false} ProbedAreDistinct(from: ClientId, k: nat)
    requires k <= U64_LIMIT
    ensures |Probed(from, k)| == k
    ensures forall id | id in Probed(from, k) :: exists j: nat :: j < k && id == Cyclic(from, j)
  {
    if k > 0 {
      ProbedAreDistinct(from, k - 1);
      if Cyclic(from, k - 1) in Probed(from, k - 1) {
        var j: nat :| j < k - 1 && Cyclic(from, k - 1) == Cyclic(from, j);
        CyclicIsInjective(from, j, k - 1);
      }
      forall id | id in Probed(from, k) ensures exists j: nat :: j < k && id == Cyclic(from, j) {
        if id in Probed(from, k - 1) {
          var j: nat :| j < k - 1 && id == Cyclic(from, j);
          assert j < k && id == Cyclic(from, j);
        } else {
          assert id == Cyclic(from, k - 1);
        }
      }
    }
  }

  lemma CyclicIsInjective(from: ClientId, i: nat, j: nat)
    requires i < j < U64_LIMIT
    ensures Cyclic(from, i) != Cyclic(from, j)
  {
  }

  /** If the first `k` probes met used ids only, there are at least `k` used ids. */
  lemma ProbesAreBounded(used: set<ClientId>, from: ClientId, k: nat)
    requires k <= U64_LIMIT && forall j: nat | j < k :: Cyclic(from, j) in used
    ensures k <= |used|
  {
    ProbedAreDistinct(from, k);
    SubsetIsSmaller(Probed(from, k), used);
  }

  lemma {:induction false} SubsetIsSmaller<T>(a: set<T>, b: set<T>)
    requires a <= b
    ensures |a| <= |b|
  {
    if a != {} {
      var x :| x in a;
      SubsetIsSmaller(a - {x}, b - {x});
    }
  }

  // ---- The registry ----

  class Server {
    var clients: map<ClientId, ClientCtrl>
    var nextAllocatedId: ClientId

    constructor ()
      ensures clients == map[] && nextAllocatedId == 0
    {
      clients, nextAllocatedId := map[], 0;
    }

    /** Moves on from the last allocated id to a free one; at most one more id is looked at than clients exist. */
    method AllocateId() returns (ghost probes: nat)
      requires |clients| < U64_LIMIT
      modifies this`nextAllocatedId
      ensures IsFirstFree(clients.Keys, old(nextAllocatedId), probes, nextAllocatedId)
      ensures probes <= |clients|
    {
      ghost var from := nextAllocatedId;
      probes := 0;
      assert |clients.Keys| == |clients|;
      while nextAllocatedId in clients
        invariant probes <= |clients|
        invariant nextAllocatedId == Cyclic(from, probes)
        invariant forall j: nat | j < probes :: Cyclic(from, j) in clients.Keys
        decreases |clients| - probes
      {
        assert forall j: nat | j < probes + 1 :: Cyclic(from, j) in clients.Keys;
        ProbesAreBounded(clients.Keys, from, probes + 1);
        nextAllocatedId := if nextAllocatedId != U64_LIMIT - 1 then nextAllocatedId + 1 else 0;
        probes := probes + 1;
      }
    }

    /** The beginning of `process_control_conn`. */
    method Register(conn: Conn, name: bytes) returns (client: ClientCtrl)
      requires |clients| < U64_LIMIT
      modifies this
      ensures client == ClientCtrl(nextAllocatedId, conn, name)
      ensures client.id !in old(clients) && clients == old(clients)[client.id := client]
      ensures exists k: nat :: k <= |old(clients)| && IsFirstFree(old(clients).Keys, old(nextAllocatedId), k, client.id)
    {
      ghost var probes := AllocateId();
      client := ClientCtrl(nextAllocatedId, conn, name);
      clients := clients[nextAllocatedId := client];
    }

    /** The end of `process_control_conn`. */
    method Unregister(client: ClientCtrl)
      modifies this`clients
      ensures clients == old(clients) - {client.id}
    {
      clients := map id | id in clients && id != client.id :: clients[id];
    }

    /** The list of clients, in whatever order the map is iterated. */
    method GetClientsDescs() returns (list: seq<(ClientId, bytes)>)
      ensures |list| == |clients|
      ensures forall i | 0 <= i < |list| :: list[i].0 in clients && list[i].1 == clients[list[i].0].name
      ensures forall i, j | 0 <= i < j < |list| :: list[i].0 != list[j].0
      ensures forall id | id in clients :: exists i :: 0 <= i < |list| && list[i] == (id, clients[id].name)
    {
      list := [];
      var left := clients.Keys;
      while left != {}
        invariant left <= clients.Keys
        invariant |list| + |left| == |clients.Keys|
        invariant forall i | 0 <= i < |list| ::
                    list[i].0 in clients && list[i].0 !in left && list[i].1 == clients[list[i].0].name
        invariant forall i, j | 0 <= i < j < |list| :: list[i].0 != list[j].0
        invariant forall id | id in clients && id !in left ::
                    exists i :: 0 <= i < |list| && list[i] == (id, clients[id].name)
        decreases left
      {
        var id :| id in left;
        ghost var before := list;
        list := list + [(id, clients[id].name)];
        left := left - {id};
        forall other | other in clients && other !in left
          ensures exists i :: 0 <= i < |list| && list[i] == (other, clients[other].name)
        {
          if other == id {
            assert list[|before|] == (other, clients[other].name);
          } else {
            var i :| 0 <= i < |before| && before[i] == (other, clients[other].name);
            assert list[i] == before[i];
          }
        }
      }
    }
  }

  // ---- Ownership, over any interleaving of connections that come and go ----

  /** `live` holds the client object of every control coroutine between registering and removing its client. */
  datatype State = State(clients: map<ClientId, ClientCtrl>, next: ClientId, live: map<Conn, ClientCtrl>)

  const INIT := State(map[], 0, map[])

  datatype Event = Connect(conn: Conn, name: bytes, id: ClientId) | Disconnect(conn: Conn)

  ghost predicate Enabled(s: State, e: Event) {
    match e
    case Connect(conn, _, id) => conn !in s.live && exists k: nat :: IsFirstFree(s.clients.Keys, s.next, k, id)
    case Disconnect(conn) => conn in s.live
  }

  ghost function Step(s: State, e: Event): State
    requires Enabled(s, e)
  {
    match e
    case Connect(conn, name, id) =>
      var client := ClientCtrl(id, conn, name);
      State(s.clients[id := client], id, s.live[conn := client])
    case Disconnect(conn) =>
      State(s.clients - {s.live[conn].id}, s.next, s.live - {conn})
  }

  ghost predicate Run(s: State, events: seq<Event>, s': State)
    decreases |events|
  {
    if events == [] then s' == s
    else Enabled(s, events[0]) && Run(Step(s, events[0]), events[1..], s')
  }

  /** Every entry is stored under its own id and belongs to the live coroutine that made it; every live coroutine has its
      entry. */
  ghost predicate Owned(s: State) {
    && (forall id | id in s.clients ::
          && s.clients[id].id == id
          && s.clients[id].conn in s.live && s.live[s.clients[id].conn] == s.clients[id])
    && (forall conn | conn in s.live ::
          && s.live[conn].conn == conn
          && s.live[conn].id in s.clients && s.clients[s.live[conn].id] == s.live[conn])
  }

  lemma StepKeepsOwned(s: State, e: Event)
    requires Owned(s) && Enabled(s, e)
    ensures Owned(Step(s, e))
  {
  }

  /** A client that connects is live and registered under the first free id, and one that disconnects is neither; all
      others stay as they are. */
  lemma StepRegisters(s: State, e: Event)
    requires Owned(s) && Enabled(s, e)
    ensures match e
            case Connect(conn, name, id) =>
              && id !in s.clients && conn in Step(s, e).live
              && Step(s, e).live[conn] == ClientCtrl(id, conn, name)
              && id in Step(s, e).clients && Step(s, e).clients[id] == ClientCtrl(id, conn, name)
            case Disconnect(conn) =>
              && conn !in Step(s, e).live && s.live[conn].id !in Step(s, e).clients
    ensures forall conn | conn in s.live && !(e.Disconnect? && conn == e.conn) ::
              && conn in Step(s, e).live && Step(s, e).live[conn] == s.live[conn]
              && s.live[conn].id in Step(s, e).clients && Step(s, e).clients[s.live[conn].id] == s.live[conn]
  {
    if e.Connect? {
      var k: nat :| IsFirstFree(s.clients.Keys, s.next, k, e.id);
    }
  }

  lemma {:induction false} RunKeepsOwned(s: State, events: seq<Event>, s': State)
    requires Owned(s) && Run(s, events, s')
    ensures Owned(s')
    decreases |events|
  {
    if events != [] {
      StepKeepsOwned(s, events[0]);
      RunKeepsOwned(Step(s, events[0]), events[1..], s');
    }
  }

  /** Removing a client by id removes exactly the entry of the coroutine that does it: all other live clients keep theirs,
      whatever ids were given out and reused before. */
  lemma DisconnectRemovesOwnEntry(events: seq<Event>, s: State, conn: Conn)
    requires Run(INIT, events, s) && conn in s.live
    ensures s.live[conn].id in s.clients && s.clients[s.live[conn].id].conn == conn
    ensures forall other | other in s.live && other != conn ::
              var t := Step(s, Disconnect(conn));
              s.live[other].id in t.clients && t.clients[s.live[other].id] == s.live[other]
    ensures forall other | other in s.live && other != conn :: s.live[other].id != s.live[conn].id
  {
    RunKeepsOwned(INIT, events, s);
  }
}
