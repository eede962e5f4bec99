/**
 * Subscription bookkeeping (`src/use_case/websocket.rs`): subscribe,
 * unsubscribe and disconnect, each an atomic update of the manager's maps.
 */
module Subscriptions {
  import opened Entity

  /** The chats a connection has recorded, or none when it has no entry. */
  function Recorded(m: Manager, c: Uuid): set<string> {
    if c in m.connections then m.connections[c] else {}
  }

  /**
   * The queue-creation part of `start_message_processor`: a new, empty
   * bounded queue is stored for the chat, replacing any previous one.
   */
  function StartMessageProcessor(m: Manager, chat: string): (r: Manager)
    ensures chat in r.queues && r.queues[chat] == Queue(QUEUE_CAPACITY, [])
    ensures forall k :: k != chat ==> (k in r.queues <==> k in m.queues)
    ensures forall k :: k != chat && k in m.queues ==> r.queues[k] == m.queues[k]
    ensures r.connections == m.connections && r.chats == m.chats
  {
    m.(queues := m.queues[chat := Queue(QUEUE_CAPACITY, [])])
  }

  /**
   * `subscribe_to_chat`: makes sure both map entries exist (an absent one
   * starts empty) and starts a queue for the chat when it has none. It does
   * not record the chat in the connection's set, nor the connection in the
   * chat's set.
   */
  function Subscribe(m: Manager, c: Connection, chat: string): (r: Manager)
    ensures c.id in r.connections && chat in r.chats
    ensures r.connections.Keys == m.connections.Keys + {c.id}
    ensures r.chats.Keys == m.chats.Keys + {chat}
    ensures forall d :: d in m.connections ==> r.connections[d] == m.connections[d]
    ensures forall k :: k in m.chats ==> r.chats[k] == m.chats[k]
    ensures c.id !in m.connections ==> r.connections[c.id] == {}
    ensures chat !in m.chats ==> r.chats[chat] == {}
    ensures chat in m.queues ==> r.queues == m.queues
    ensures chat !in m.queues ==> r.queues == m.queues[chat := Queue(QUEUE_CAPACITY, [])]
  {
    var connections := if c.id in m.connections then m.connections else m.connections[c.id := {}];
    var chats := if chat in m.chats then m.chats else m.chats[chat := {}];
    var registered := m.(connections := connections, chats := chats);
    if chat !in m.queues then StartMessageProcessor(registered, chat) else registered
  }

  /**
   * Removes `v` from the set under `k`, dropping the entry once it is empty:
   * the `get_mut`/`remove` step `unsubscribe_from_chat` applies to each map.
   */
  function Drop<K, V>(m: map<K, set<V>>, k: K, v: V): (r: map<K, set<V>>)
    ensures k in r ==> k in m && r[k] == m[k] - {v} != {}
    ensures k in m && m[k] - {v} == {} ==> k !in r
    ensures r - {k} == m - {k}
  {
    if k in m then
      var rest := m[k] - {v};
      if rest == {} then m - {k} else m[k := rest]
    else m
  }

  /** `unsubscribe_from_chat`. */
  function Unsubscribe(m: Manager, c: Connection, chat: string): (r: Manager)
    ensures forall d, x :: Subscribed(r, d, x) <==> Subscribed(m, d, x) && !(d == c.id && x == chat)
    ensures forall d, x :: Listed(r, x, d) <==> Listed(m, x, d) && !(d == c.id && x == chat)
    ensures c.id in m.connections && m.connections[c.id] - {chat} == {} ==> c.id !in r.connections
    ensures c.id in r.connections ==> c.id in m.connections && r.connections[c.id] == m.connections[c.id] - {chat} != {}
    ensures chat in m.chats && m.chats[chat] - {c.id} == {} ==> chat !in r.chats
    ensures chat in r.chats ==> chat in m.chats && r.chats[chat] == m.chats[chat] - {c.id} != {}
    ensures r.connections - {c.id} == m.connections - {c.id}
    ensures r.chats - {chat} == m.chats - {chat}
    ensures c.id !in m.connections ==> r.connections == m.connections
    ensures chat !in m.chats ==> r.chats == m.chats
    ensures r.queues == m.queues
  {
    m.(connections := Drop(m.connections, c.id, chat), chats := Drop(m.chats, chat, c.id))
  }

  /** `chats` after `c` has left every chat in `ids`; emptied entries are dropped. */
  function LeaveAll(chats: map<string, set<Uuid>>, c: Uuid, ids: set<string>): map<string, set<Uuid>> {
    map k | k in chats && !(k in ids && chats[k] - {c} == {}) :: if k in ids then chats[k] - {c} else chats[k]
  }

  /**
   * The registry part of `disconnect`: `c` leaves every chat its own set
   * records, then its entry is removed.
   */
  function Disconnect(m: Manager, c: Connection): (r: Manager)
    ensures c.id !in r.connections
    ensures forall d, x :: d != c.id ==> (Subscribed(r, d, x) <==> Subscribed(m, d, x))
    ensures forall d, x :: d != c.id ==> (Listed(r, x, d) <==> Listed(m, x, d))
    ensures forall x :: x in Recorded(m, c.id) ==> !Listed(r, x, c.id)
    ensures forall x :: x !in Recorded(m, c.id) ==> (Listed(r, x, c.id) <==> Listed(m, x, c.id))
    ensures r.connections == m.connections - {c.id}
    ensures r.chats - Recorded(m, c.id) == m.chats - Recorded(m, c.id)
    ensures forall x :: x in Recorded(m, c.id) && x in m.chats ==>
      (x in r.chats <==> m.chats[x] - {c.id} != {}) && (x in r.chats ==> r.chats[x] == m.chats[x] - {c.id})
    ensures forall x :: x in r.chats ==> x in m.chats
    ensures r.queues == m.queues
  {
    LeaveAllKeepsOthers(m.chats, c.id, Recorded(m, c.id));
    Manager(m.connections - {c.id}, LeaveAll(m.chats, c.id, Recorded(m, c.id)), m.queues)
  }

  /** `LeaveAll` leaves every other connection's chat membership alone. */
  lemma LeaveAllKeepsOthers(chats: map<string, set<Uuid>>, c: Uuid, ids: set<string>)
    ensures forall k, d :: d != c ==>
      (k in LeaveAll(chats, c, ids) && d in LeaveAll(chats, c, ids)[k] <==> k in chats && d in chats[k])
  {
    forall k, d | d != c && k in chats && d in chats[k]
      ensures k in LeaveAll(chats, c, ids)
    {
      assert d in chats[k] - {c};
    }
  }

  /** Leaving one more chat extends `LeaveAll` by one `Drop` on the chat side. */
  lemma LeaveAllStep(chats: map<string, set<Uuid>>, c: Uuid, done: set<string>, x: string)
    requires x !in done
    ensures LeaveAll(chats, c, done + {x}) == Drop(LeaveAll(chats, c, done), x, c)
  {
    var lhs := LeaveAll(chats, c, done + {x});
    var rhs := Drop(LeaveAll(chats, c, done), x, c);
    assert lhs.Keys == rhs.Keys;
    forall k | k in lhs
      ensures lhs[k] == rhs[k]
    {
    }
  }

  /**
   * `disconnect` as a sequence of steps: one `unsubscribe_from_chat` per chat
   * in the connection's set, in whatever order, then removal of the entry.
   * Every order gives the same manager as `Disconnect`.
   */
  method DisconnectInSequence(m: Manager, c: Connection) returns (r: Manager)
    ensures r == Disconnect(m, c)
  {
    r := m;
    var todo := Recorded(m, c.id);
    ghost var done: set<string> := {};
    assert LeaveAll(m.chats, c.id, {}) == m.chats;
    while todo != {}
      invariant todo + done == Recorded(m, c.id) && todo !! done
      invariant r.queues == m.queues
      invariant r.connections - {c.id} == m.connections - {c.id}
      invariant c.id in r.connections ==> r.connections[c.id] == todo
      invariant r.chats == LeaveAll(m.chats, c.id, done)
      decreases todo
    {
      var x :| x in todo;
      LeaveAllStep(m.chats, c.id, done, x);
      r := Unsubscribe(r, c, x);
      todo := todo - {x};
      done := done + {x};
    }
    r := r.(connections := r.connections - {c.id});
  }

  /** Subscribing changes no membership in either map. */
  lemma SubscribeAddsNoMembership(m: Manager, c: Connection, chat: string)
    ensures forall d, x :: Subscribed(Subscribe(m, c, chat), d, x) <==> Subscribed(m, d, x)
    ensures forall d, x :: Listed(Subscribe(m, c, chat), x, d) <==> Listed(m, x, d)
  {
  }

  /** Subscribing twice is subscribing once. */
  lemma SubscribeIdempotent(m: Manager, c: Connection, chat: string)
    ensures Subscribe(Subscribe(m, c, chat), c, chat) == Subscribe(m, c, chat)
  {
  }

  /**
   * Unsubscribing right after a connection's first subscribe to a new chat
   * drops both entries: the branch in which `unsubscribe_from_chat` removes
   * a key while still holding its `get_mut` guard.
   */
  lemma UnsubscribeAfterSubscribe(m: Manager, c: Connection, chat: string)
    requires c.id !in m.connections && chat !in m.chats
    ensures var s := Subscribe(m, c, chat);
      && s.connections[c.id] - {chat} == {} && s.chats[chat] - {c.id} == {}
      && Unsubscribe(s, c, chat).connections == m.connections
      && Unsubscribe(s, c, chat).chats == m.chats
      && chat in Unsubscribe(s, c, chat).queues
  {
    var s := Subscribe(m, c, chat);
    assert s.connections - {c.id} == m.connections;
    assert s.chats - {chat} == m.chats;
  }

  /** Unsubscribing twice is unsubscribing once. */
  lemma UnsubscribeIdempotent(m: Manager, c: Connection, chat: string)
    ensures Unsubscribe(Unsubscribe(m, c, chat), c, chat) == Unsubscribe(m, c, chat)
  {
    var once := Unsubscribe(m, c, chat);
    if c.id in once.connections {
      assert once.connections[c.id] - {chat} == once.connections[c.id];
    }
    if chat in once.chats {
      assert once.chats[chat] - {c.id} == once.chats[chat];
    }
  }

  /** Subscribe, unsubscribe and disconnect all keep the mirror invariant. */
  lemma OperationsKeepMirror(m: Manager, c: Connection, chat: string)
    requires Mirror(m)
    ensures Mirror(Subscribe(m, c, chat))
    ensures Mirror(Unsubscribe(m, c, chat))
    ensures Mirror(Disconnect(m, c))
  {
    SubscribeAddsNoMembership(m, c, chat);
    var r := Disconnect(m, c);
    forall d, x
      ensures Subscribed(r, d, x) <==> Listed(r, x, d)
    {
      if d == c.id {
        if x in Recorded(m, c.id) {
        } else {
          assert !Subscribed(m, d, x);
        }
      }
    }
  }

  /** After disconnecting under the mirror invariant, the connection appears nowhere. */
  lemma DisconnectForgetsConnection(m: Manager, c: Connection)
    requires Mirror(m)
    ensures forall x :: !Subscribed(Disconnect(m, c), c.id, x) && !Listed(Disconnect(m, c), x, c.id)
  {
    forall x
      ensures !Listed(Disconnect(m, c), x, c.id)
    {
      if x !in Recorded(m, c.id) {
        assert !Subscribed(m, c.id, x);
      }
    }
  }
}
