/**
 * The connection registry's data (`protocol/src/entity/websocket.rs`):
 * connections, the subscription manager's three maps, and the per-chat queue.
 */
module Entity {
  import opened Wire

  /** A connection's identifier (a v4 UUID in the source). */
  type Uuid = nat

  /** An opaque handle to the connection's socket session. */
  type SessionHandle = nat

  datatype Connection = Connection(id: Uuid, session: SessionHandle)

  /** `PartialEq for WebSocketConnection`: only the ids are compared. */
  predicate SameConnection(a: Connection, b: Connection) {
    a.id == b.id
  }

  /** What `Hash for WebSocketConnection` feeds to the hasher: the id alone. */
  function HashInput(c: Connection): seq<Uuid> {
    [c.id]
  }

  /** A frame queued for a chat together with the connection it came from. */
  datatype ConnectedMessage = ConnectedMessage(connection: Connection, message: Incoming)

  /** Capacity of the bounded channel created for each chat. */
  const QUEUE_CAPACITY: nat := 100

  /** A chat's message channel: its bound and what has been sent into it. */
  datatype Queue = Queue(capacity: nat, pending: seq<ConnectedMessage>)

  /**
   * `WebSocketManager`. Connections are keyed by their id, which is sound
   * because connection equality and hashing look at the id alone.
   */
  datatype Manager = Manager(
    connections: map<Uuid, set<string>>,
    chats: map<string, set<Uuid>>,
    queues: map<string, Queue>)

  /** `Default`: all three maps empty. */
  function Default(): (m: Manager)
    ensures |m.connections| == 0 && |m.chats| == 0 && |m.queues| == 0
  {
    Manager(map[], map[], map[])
  }

  /** `WebSocketManager::new`: the three given maps, stored as they are. */
  function New(connections: map<Uuid, set<string>>, chats: map<string, set<Uuid>>, queues: map<string, Queue>): (m: Manager)
    ensures m.connections == connections && m.chats == chats && m.queues == queues
  {
    Manager(connections, chats, queues)
  }

  /** The connection records the chat in its own set. */
  predicate Subscribed(m: Manager, c: Uuid, chat: string) {
    c in m.connections && chat in m.connections[c]
  }

  /** The chat records the connection in its own set. */
  predicate Listed(m: Manager, chat: string, c: Uuid) {
    chat in m.chats && c in m.chats[chat]
  }

  /** The documented invariant: the two maps are mirror images of each other. */
  ghost predicate Mirror(m: Manager) {
    forall c, chat :: Subscribed(m, c, chat) <==> Listed(m, chat, c)
  }

  /** Connection equality is an equivalence that ignores the session handle. */
  lemma SameConnectionIgnoresSession(a: Connection, b: Connection, c: Connection)
    ensures SameConnection(a, b) <==> a.id == b.id
    ensures SameConnection(a, a)
    ensures SameConnection(a, b) ==> SameConnection(b, a)
    ensures SameConnection(a, b) && SameConnection(b, c) ==> SameConnection(a, c)
    ensures SameConnection(a, Connection(a.id, b.session))
  {
  }

  /** Equal connections hash equally, whatever their sessions. */
  lemma EqualConnectionsHashEqually(a: Connection, b: Connection)
    requires SameConnection(a, b)
    ensures HashInput(a) == HashInput(b)
  {
  }

  /** A default manager satisfies the mirror invariant. */
  lemma DefaultMirror()
    ensures Mirror(Default())
  {
  }

  /**
   * A freshly generated id that the manager has no entry for is recorded
   * in no chat either, as long as the mirror invariant holds.
   */
  lemma FreshConnectionUnknown(m: Manager, c: Connection)
    requires Mirror(m)
    requires c.id !in m.connections
    ensures forall chat :: !Listed(m, chat, c.id)
  {
    forall chat
      ensures !Listed(m, chat, c.id)
    {
      assert !Subscribed(m, c.id, chat);
    }
  }
}
