/**
 * The connection handler (`src/infrastructure/websocket.rs`): the per-frame
 * dispatch table `process_message` and the frame loop `handle_connection`
 * around it, as pure functions from a state to a state and a list of effects.
 */
module Service {
  import opened Wrappers
  import opened Base64
  import opened Wire
  import opened Entity
  import opened Store
  import opened Messages
  import Subscriptions

  /** `ControlFlow<()>`: keep reading frames or drop the connection. */
  datatype Flow = Continue | Break

  /** What handling a frame does to the world outside the registry and the table. */
  datatype Effect =
    | Reply(reply: Outgoing)
    | Enqueued(chat: string, item: ConnectedMessage)
    | Stored(message: Message)
    | Joined(chat: string)
    | Left(chat: string)
    | Replayed(rounds: seq<Round>)
    | SessionClosed

  /** The shared state a frame can change: the subscription registry and the message table. */
  datatype State = State(manager: Manager, table: Table)

  /** The outcome of one frame. */
  datatype Step = Step(state: State, effects: seq<Effect>, flow: Flow)

  /** The status an effect reports, if it is a status reply. */
  function StatusOf(e: Effect): Option<bool> {
    if e.Reply? && e.reply.StatusReply? then Some(e.reply.status) else None
  }

  /**
   * The frame was answered by exactly one status reply, and the handler
   * breaks exactly when that status is negative.
   */
  predicate Answered(s: Step) {
    && (exists i :: 0 <= i < |s.effects| && StatusOf(s.effects[i]).Some?
                    && forall j :: 0 <= j < |s.effects| && j != i ==> StatusOf(s.effects[j]).None?)
    && (s.flow == Break <==> exists i :: 0 <= i < |s.effects| && StatusOf(s.effects[i]) == Some(false))
  }

  /** A step whose only status reply sits at `i` is answered. */
  lemma AnsweredAt(s: Step, i: nat)
    requires i < |s.effects| && StatusOf(s.effects[i]).Some?
    requires forall j :: 0 <= j < |s.effects| && j != i ==> StatusOf(s.effects[j]).None?
    requires s.flow == Break <==> StatusOf(s.effects[i]) == Some(false)
    ensures Answered(s)
  {
  }

  /** The refusal every failing branch sends: status false, nothing changed, connection dropped. */
  function Refuse(st: State): (s: Step)
    ensures Answered(s) && s.flow == Break && s.state == st
    ensures s.effects == [Reply(StatusFor(false))]
  {
    var s := Step(st, [Reply(StatusFor(false))], Break);
    assert StatusOf(s.effects[0]) == Some(false);
    s
  }

  /** An acknowledgement after `effects`: status true, connection kept. */
  function Acknowledge(st: State, effects: seq<Effect>): (s: Step)
    requires forall i :: 0 <= i < |effects| ==> StatusOf(effects[i]).None?
    ensures Answered(s) && s.flow == Continue && s.state == st
    ensures |s.effects| == |effects| + 1 && s.effects[..|effects|] == effects
    ensures s.effects[|effects|] == Reply(StatusFor(true))
  {
    var s := Step(st, effects + [Reply(StatusFor(true))], Continue);
    assert StatusOf(s.effects[|effects|]) == Some(true);
    assert forall i :: 0 <= i < |effects| ==> s.effects[i] == effects[i];
    s
  }

  /** `queue.0.send(message)`: the frame joins the end of the chat's queue. */
  function Enqueue(m: Manager, chat: string, item: ConnectedMessage): (r: Manager)
    requires chat in m.queues
    ensures chat in r.queues && r.queues[chat].pending == m.queues[chat].pending + [item]
    ensures r.queues[chat].capacity == m.queues[chat].capacity
    ensures r.queues.Keys == m.queues.Keys
    ensures forall k :: k in m.queues && k != chat ==> r.queues[k] == m.queues[k]
    ensures r.connections == m.connections && r.chats == m.chats
  {
    var q := m.queues[chat];
    m.(queues := m.queues[chat := q.(pending := q.pending + [item])])
  }

  /** A valid `Send` to a chat with a queue: the frame is enqueued and nothing is stored. */
  function SendToQueue(st: State, conn: Connection, msg: Message): (s: Step)
    requires msg.chatId in st.manager.queues
    ensures Answered(s) && s.flow == Continue && s.state.table == st.table
    ensures s.state.manager == Enqueue(st.manager, msg.chatId, ConnectedMessage(conn, Send(msg)))
    ensures s.effects == [Enqueued(msg.chatId, ConnectedMessage(conn, Send(msg))), Reply(StatusFor(true))]
  {
    var item := ConnectedMessage(conn, Send(msg));
    Acknowledge(State(Enqueue(st.manager, msg.chatId, item), st.table), [Enqueued(msg.chatId, item)])
  }

  /** A valid `Send` to a chat without a queue: the frame goes to the store, whose refusal drops the connection. */
  function SendToStore(st: State, msg: Message): (s: Step)
    ensures Answered(s) && s.state.manager == st.manager
    ensures InsertMessage(st.table, msg).Success? ==>
      && s.flow == Continue && s.state.table == InsertMessage(st.table, msg).value
      && s.effects == [Stored(msg), Reply(StatusFor(true))]
    ensures InsertMessage(st.table, msg).Failure? ==> s == Refuse(st)
  {
    match InsertMessage(st.table, msg)
    case Failure(_) => Refuse(st)
    case Success(t) => Acknowledge(State(st.manager, t), [Stored(msg)])
  }

  /** The history query the `Subscribe` branch replays with, failing at the cursors in `failing`. */
  function HistoryReplay(t: Table, chat: seq<byte>, nonce: nat, failing: set<nat>): (rounds: seq<Round>)
    ensures |rounds| >= 1 && rounds[0].cursor == nonce
    ensures forall k :: 0 <= k < |rounds| ==> FetchedRound(StoreFetch(t, chat, failing), rounds[k])
    ensures Advancing(rounds, nonce) && Stopped(rounds)
  {
    StoreFetchHonoursQuery(t, chat, failing);
    Replay(StoreFetch(t, chat, failing), GetLastNonceOrZero(t, chat), nonce)
  }

  /**
   * The `Subscribe` branch: the chat id must decode; the registry is
   * updated with the raw string, history is replayed with the decoded
   * bytes, and a wait event names the raw string again.
   */
  function HandleSubscribe(st: State, conn: Connection, msg: Message, failing: set<nat>): (s: Step)
    ensures Answered(s)
    ensures Decode(msg.chatId).Failure? ==> s == Refuse(st)
    ensures Decode(msg.chatId).Success? ==>
      && s.flow == Continue
      && s.state == State(Subscriptions.Subscribe(st.manager, conn, msg.chatId), st.table)
      && s.effects == [Joined(msg.chatId), Reply(StatusFor(true)),
                       Replayed(HistoryReplay(st.table, Decode(msg.chatId).value, msg.nonce, failing)),
                       Reply(WaitEventFor(msg.chatId))]
  {
    match Decode(msg.chatId)
    case Failure(_) => Refuse(st)
    case Success(chat) =>
      var rounds := HistoryReplay(st.table, chat, msg.nonce, failing);
      var s := Step(State(Subscriptions.Subscribe(st.manager, conn, msg.chatId), st.table),
                    [Joined(msg.chatId), Reply(StatusFor(true)), Replayed(rounds), Reply(WaitEventFor(msg.chatId))],
                    Continue);
      assert StatusOf(s.effects[1]) == Some(true);
      assert StatusOf(s.effects[0]).None? && StatusOf(s.effects[2]).None? && StatusOf(s.effects[3]).None?;
      AnsweredAt(s, 1);
      s
  }

  /**
   * `process_message`: the dispatch table over the five frame kinds.
   * `failing` holds the cursors at which the history query reports a
   * database error.
   */
  function ProcessMessage(st: State, conn: Connection, incoming: Incoming, failing: set<nat>): (s: Step)
    ensures incoming.NoneMessage? <==> s.effects == []
    ensures !incoming.NoneMessage? ==> Answered(s)
    ensures s.flow == Break ==> s.state == st
    ensures incoming.Ping? ==> s == Step(st, [Reply(StatusFor(true))], Continue)
    ensures incoming.Send? && !IsValidMessage(ToOutcome(incoming.msg)) ==> s == Refuse(st)
    ensures incoming.Send? && IsValidMessage(ToOutcome(incoming.msg)) && incoming.msg.chatId in st.manager.queues ==>
      s == SendToQueue(st, conn, incoming.msg)
    ensures incoming.Send? && IsValidMessage(ToOutcome(incoming.msg)) && incoming.msg.chatId !in st.manager.queues ==>
      s == SendToStore(st, incoming.msg)
    ensures incoming.Subscribe? ==> s == HandleSubscribe(st, conn, incoming.msg, failing)
    ensures incoming.Unsubscribe? ==>
      s == Step(State(Subscriptions.Unsubscribe(st.manager, conn, incoming.msg.chatId), st.table),
                [Left(incoming.msg.chatId), Reply(StatusFor(true))], Continue)
    ensures incoming.NoneMessage? ==> s == Step(st, [], Continue)
  {
    match incoming
    case Ping => Acknowledge(st, [])
    case Send(msg) =>
      if !IsValidMessage(ToOutcome(msg)) then Refuse(st)
      else if msg.chatId in st.manager.queues then SendToQueue(st, conn, msg)
      else SendToStore(st, msg)
    case Subscribe(msg) => HandleSubscribe(st, conn, msg, failing)
    case Unsubscribe(msg) =>
      Acknowledge(State(Subscriptions.Unsubscribe(st.manager, conn, msg.chatId), st.table), [Left(msg.chatId)])
    case NoneMessage => Step(st, [], Continue)
  }

  /**
   * Since the store refuses the first message of a chat, a valid `Send` to
   * a chat that has neither rows nor a queue drops the connection.
   */
  lemma FirstSendBreaks(st: State, conn: Connection, msg: Message, failing: set<nat>)
    requires IsValidMessage(ToOutcome(msg)) && msg.chatId !in st.manager.queues
    requires Decode(msg.chatId).Success? && !HasChat(st.table, Decode(msg.chatId).value)
    ensures ProcessMessage(st, conn, Send(msg), failing) == Refuse(st)
  {
  }

  /** Dispatching a frame never closes the session. */
  lemma ProcessNeverCloses(st: State, conn: Connection, incoming: Incoming, failing: set<nat>)
    ensures SessionClosed !in ProcessMessage(st, conn, incoming, failing).effects
  {
    match incoming
    case Send(msg) => SendNeverCloses(st, conn, msg, failing);
    case Subscribe(msg) => SubscribeNeverCloses(st, conn, msg, failing);
    case Unsubscribe(msg) =>
      assert ProcessMessage(st, conn, incoming, failing).effects == [Left(msg.chatId), Reply(StatusFor(true))];
    case Ping =>
      assert ProcessMessage(st, conn, incoming, failing).effects == [Reply(StatusFor(true))];
    case NoneMessage =>
  }

  lemma SendNeverCloses(st: State, conn: Connection, msg: Message, failing: set<nat>)
    ensures SessionClosed !in ProcessMessage(st, conn, Send(msg), failing).effects
  {
    var s := ProcessMessage(st, conn, Send(msg), failing);
    if !IsValidMessage(ToOutcome(msg)) {
      assert s == Refuse(st);
    } else if msg.chatId in st.manager.queues {
      assert s == SendToQueue(st, conn, msg);
      assert s.effects == [Enqueued(msg.chatId, ConnectedMessage(conn, Send(msg))), Reply(StatusFor(true))];
    } else if InsertMessage(st.table, msg).Success? {
      assert s == SendToStore(st, msg);
      assert s.effects == [Stored(msg), Reply(StatusFor(true))];
    } else {
      assert s == SendToStore(st, msg);
      assert s == Refuse(st);
    }
  }

  lemma SubscribeNeverCloses(st: State, conn: Connection, msg: Message, failing: set<nat>)
    ensures SessionClosed !in ProcessMessage(st, conn, Subscribe(msg), failing).effects
  {
    var s := HandleSubscribe(st, conn, msg, failing);
    assert ProcessMessage(st, conn, Subscribe(msg), failing) == s;
    if Decode(msg.chatId).Failure? {
      assert s.effects == [Reply(StatusFor(false))];
    } else {
      assert s.effects[0].Joined? && s.effects[1].Reply? && s.effects[2].Replayed? && s.effects[3].Reply?;
      assert |s.effects| == 4;
    }
  }

  /**
   * From `m` to `r` no membership was recorded, and the mirror invariant,
   * if it held, still holds.
   */
  ghost predicate RegistryKept(m: Manager, r: Manager) {
    && (forall d, x :: Subscribed(r, d, x) ==> Subscribed(m, d, x))
    && (Mirror(m) ==> Mirror(r))
  }

  /** Dispatching a frame records no membership and keeps the mirror invariant. */
  lemma ProcessKeepsRegistry(st: State, conn: Connection, incoming: Incoming, failing: set<nat>)
    ensures RegistryKept(st.manager, ProcessMessage(st, conn, incoming, failing).state.manager)
  {
    var s := ProcessMessage(st, conn, incoming, failing);
    if s.flow == Continue && (incoming.Subscribe? || incoming.Unsubscribe?) {
      Subscriptions.SubscribeAddsNoMembership(st.manager, conn, incoming.msg.chatId);
      if Mirror(st.manager) {
        Subscriptions.OperationsKeepMirror(st.manager, conn, incoming.msg.chatId);
      }
    } else {
      assert forall d, x :: Subscribed(s.state.manager, d, x) <==> Subscribed(st.manager, d, x);
      assert forall d, x :: Listed(s.state.manager, x, d) <==> Listed(st.manager, x, d);
    }
  }

  /** One frame of the socket stream. */
  datatype Frame = Text(text: string) | Close | Other

  /** What `stream.next()` yields: a frame, or an error that ends the stream. */
  datatype Item = Received(frame: Frame) | StreamError

  /** Why the frame loop stopped. */
  datatype End = Exhausted | Failed | Closed | Broken

  /**
   * The loop's outcome: the final state, the effects in order, why it ended,
   * how many items it read, and the step each of those items produced.
   */
  datatype Run = Run(state: State, effects: seq<Effect>, end: End, consumed: nat, steps: seq<Step>)

  /** Whether an item ends the loop whatever the state: a stream error or a Close frame. */
  predicate Ends(x: Item) {
    x == StreamError || x == Received(Close)
  }

  /** How the loop handles one decoded frame: `process_message` for this connection. */
  type Dispatch = (State, Incoming) -> Step

  /** `process_message` bound to a connection and to the cursors at which the history query fails. */
  function Dispatcher(conn: Connection, failing: set<nat>): Dispatch {
    (st: State, incoming: Incoming) => ProcessMessage(st, conn, incoming, failing)
  }

  /**
   * One pass of the loop body for item `x`: a stream error or a Close frame
   * stops the loop, an unparsable text frame is answered with status false,
   * other frames are skipped, and a parsed frame is dispatched.
   */
  function Feed(st: State, x: Item, parse: string -> Option<Incoming>, dispatch: Dispatch): (s: Step)
    ensures Ends(x) ==> s == Step(st, [], Break)
    ensures x == Received(Other) ==> s == Step(st, [], Continue)
    ensures s.flow == Break && !Ends(x) ==> x.Received? && x.frame.Text? && parse(x.frame.text).Some?
    ensures x.Received? && x.frame.Text? && parse(x.frame.text).None? ==> s == Step(st, [Reply(StatusFor(false))], Continue)
    ensures x.Received? && x.frame.Text? && parse(x.frame.text).Some? ==> s == dispatch(st, parse(x.frame.text).value)
  {
    match x
    case StreamError => Step(st, [], Break)
    case Received(Close) => Step(st, [], Break)
    case Received(Other) => Step(st, [], Continue)
    case Received(Text(text)) =>
      match parse(text)
      case None => Step(st, [Reply(StatusFor(false))], Continue)
      case Some(incoming) => dispatch(st, incoming)
  }

  /** Why the loop stops when item `x` produced a `Break`. */
  function EndOf(x: Item): End {
    match x
    case StreamError => Failed
    case Received(Close) => Closed
    case Received(_) => Broken
  }

  /** The state before the `k`-th step of a run that began in `st`. */
  function StateBefore(st: State, steps: seq<Step>, k: nat): State
    requires k <= |steps|
  {
    if k == 0 then st else steps[k - 1].state
  }

  /** The effects of a sequence of steps, in order. */
  function Effects(steps: seq<Step>): seq<Effect> {
    if |steps| == 0 then [] else steps[0].effects + Effects(steps[1..])
  }

  /**
   * `steps` are what the loop body produced for the first `|steps|` items:
   * the first from `st`, each later one from the state the previous left.
   */
  predicate Follows(st: State, items: seq<Item>, steps: seq<Step>, parse: string -> Option<Incoming>, dispatch: Dispatch)
    decreases |steps|
  {
    && |steps| <= |items|
    && (|steps| > 0 ==>
          && steps[0] == Feed(st, items[0], parse, dispatch)
          && Follows(steps[0].state, items[1..], steps[1..], parse, dispatch))
  }

  /** The `k`-th step of a trace is the loop body run on the `k`-th item. */
  lemma {:induction false} FollowsAt(st: State, items: seq<Item>, steps: seq<Step>, parse: string -> Option<Incoming>, dispatch: Dispatch, k: nat)
    requires Follows(st, items, steps, parse, dispatch) && k < |steps|
    ensures steps[k] == Feed(StateBefore(st, steps, k), items[k], parse, dispatch)
    decreases k
  {
    if k > 0 {
      FollowsAt(steps[0].state, items[1..], steps[1..], parse, dispatch, k - 1);
      assert steps[1..][k - 1] == steps[k] && items[1..][k - 1] == items[k];
      assert StateBefore(steps[0].state, steps[1..], k - 1) == StateBefore(st, steps, k);
    }
  }

  /**
   * The `while let Some(Ok(msg))` loop of `handle_connection`. `parse`
   * stands for `serde_json::from_str::<IncomeMessage>`.
   */
  function Loop(st: State, items: seq<Item>, parse: string -> Option<Incoming>, dispatch: Dispatch): (r: Run)
    ensures r.consumed <= |items| && |r.steps| == r.consumed
    ensures Follows(st, items, r.steps, parse, dispatch)
    ensures forall k :: 0 <= k < |r.steps| - 1 ==> r.steps[k].flow == Continue
    ensures r.end == Exhausted ==> r.consumed == |items| && forall k :: 0 <= k < |r.steps| ==> r.steps[k].flow == Continue
    ensures r.end != Exhausted ==> r.consumed >= 1 && r.steps[r.consumed - 1].flow == Break
    ensures r.end != Exhausted ==> r.end == EndOf(items[r.consumed - 1])
    ensures r.state == StateBefore(st, r.steps, |r.steps|)
    ensures r.effects == Effects(r.steps)
    decreases |items|
  {
    if |items| == 0 then Run(st, [], Exhausted, 0, [])
    else
      var s := Feed(st, items[0], parse, dispatch);
      if s.flow == Break then Run(s.state, s.effects, EndOf(items[0]), 1, [s])
      else
        var rest := Loop(s.state, items[1..], parse, dispatch);
        var steps := [s] + rest.steps;
        assert steps[1..] == rest.steps;
        assert forall k :: 1 <= k < |steps| ==> steps[k] == rest.steps[k - 1];
        Run(rest.state, s.effects + rest.effects, rest.end, rest.consumed + 1, steps)
  }

  /** Items that end the stream stop the loop, and each ending names the item that caused it. */
  lemma {:induction false} LoopStopsAtEnds(st: State, items: seq<Item>, parse: string -> Option<Incoming>, dispatch: Dispatch)
    ensures var r := Loop(st, items, parse, dispatch);
      && (r.end == Exhausted ==> forall i :: 0 <= i < |items| ==> !Ends(items[i]))
      && (forall i :: 0 <= i < |items| && Ends(items[i]) ==> r.consumed <= i + 1)
      && (r.end == Failed ==> items[r.consumed - 1] == StreamError)
      && (r.end == Closed ==> items[r.consumed - 1] == Received(Close))
      && (r.end == Broken ==> items[r.consumed - 1].Received? && items[r.consumed - 1].frame.Text?
                              && parse(items[r.consumed - 1].frame.text).Some?)
  {
    var r := Loop(st, items, parse, dispatch);
    if r.consumed > 0 {
      LastItem(st, items, parse, dispatch);
    }
    forall i | 0 <= i < |items| && Ends(items[i])
      ensures r.consumed <= i + 1
    {
      EndsStop(st, items, parse, dispatch, i);
    }
  }

  /** The last item read explains how the loop ended. */
  lemma {:induction false} LastItem(st: State, items: seq<Item>, parse: string -> Option<Incoming>, dispatch: Dispatch)
    requires Loop(st, items, parse, dispatch).consumed > 0
    ensures var r := Loop(st, items, parse, dispatch); var x := items[r.consumed - 1];
      && (r.end == Exhausted ==> !Ends(x))
      && (r.end == Failed ==> x == StreamError)
      && (r.end == Closed ==> x == Received(Close))
      && (r.end == Broken ==> x.Received? && x.frame.Text? && parse(x.frame.text).Some?)
  {
    var r := Loop(st, items, parse, dispatch);
    FollowsAt(st, items, r.steps, parse, dispatch, r.consumed - 1);
  }

  /** No item after an ending item is read. */
  lemma {:induction false} EndsStop(st: State, items: seq<Item>, parse: string -> Option<Incoming>, dispatch: Dispatch, i: nat)
    requires i < |items| && Ends(items[i])
    ensures Loop(st, items, parse, dispatch).consumed <= i + 1
  {
    var r := Loop(st, items, parse, dispatch);
    if i < r.consumed {
      FollowsAt(st, items, r.steps, parse, dispatch, i);
    }
  }

  /** A dispatch that never closes the session. */
  ghost predicate Quiet(dispatch: Dispatch) {
    forall st: State, incoming: Incoming :: SessionClosed !in dispatch(st, incoming).effects
  }

  /** A dispatch that records no membership and keeps the mirror invariant. */
  ghost predicate KeepsRegistry(dispatch: Dispatch) {
    forall st: State, incoming: Incoming :: RegistryKept(st.manager, dispatch(st, incoming).state.manager)
  }

  /** `process_message` never closes the session and keeps the registry. */
  lemma DispatcherBehaves(conn: Connection, failing: set<nat>)
    ensures Quiet(Dispatcher(conn, failing)) && KeepsRegistry(Dispatcher(conn, failing))
  {
    forall st: State, incoming: Incoming
      ensures RegistryKept(st.manager, Dispatcher(conn, failing)(st, incoming).state.manager)
      ensures SessionClosed !in Dispatcher(conn, failing)(st, incoming).effects
    {
      ProcessKeepsRegistry(st, conn, incoming, failing);
      ProcessNeverCloses(st, conn, incoming, failing);
    }
  }

  /** The frame loop alone never closes the session. */
  lemma {:induction false} LoopQuiet(st: State, items: seq<Item>, parse: string -> Option<Incoming>, dispatch: Dispatch)
    requires Quiet(dispatch)
    ensures SessionClosed !in Loop(st, items, parse, dispatch).effects
    decreases |items|
  {
    if |items| > 0 {
      var s := Feed(st, items[0], parse, dispatch);
      assert SessionClosed !in s.effects;
      if s.flow == Continue {
        LoopQuiet(s.state, items[1..], parse, dispatch);
      }
    }
  }

  /** The frame loop records no membership and keeps the mirror invariant. */
  lemma {:induction false} LoopKeepsRegistry(st: State, items: seq<Item>, parse: string -> Option<Incoming>, dispatch: Dispatch)
    requires KeepsRegistry(dispatch)
    ensures RegistryKept(st.manager, Loop(st, items, parse, dispatch).state.manager)
    decreases |items|
  {
    if |items| > 0 {
      var s := Feed(st, items[0], parse, dispatch);
      assert RegistryKept(st.manager, s.state.manager);
      if s.flow == Continue {
        LoopKeepsRegistry(s.state, items[1..], parse, dispatch);
      }
    }
  }

  /**
   * `handle_connection`: the frame loop, then `disconnect` whatever ended
   * it, which closes the session and unregisters the connection.
   */
  function HandleConnection(st: State, conn: Connection, items: seq<Item>, parse: string -> Option<Incoming>, failing: set<nat>): (r: Run)
    ensures conn.id !in r.state.manager.connections
    ensures |r.effects| >= 1 && r.effects[|r.effects| - 1] == SessionClosed
    ensures SessionClosed !in r.effects[..|r.effects| - 1]
    ensures Mirror(st.manager) ==> Mirror(r.state.manager) && forall x :: !Listed(r.state.manager, x, conn.id)
    ensures forall d, x :: Subscribed(r.state.manager, d, x) ==> d != conn.id && Subscribed(st.manager, d, x)
    ensures var run := Loop(st, items, parse, Dispatcher(conn, failing));
      && r.effects == run.effects + [SessionClosed]
      && r.state == State(Subscriptions.Disconnect(run.state.manager, conn), run.state.table)
      && r.end == run.end && r.consumed == run.consumed && r.steps == run.steps
  {
    var run := Loop(st, items, parse, Dispatcher(conn, failing));
    DispatcherBehaves(conn, failing);
    LoopQuiet(st, items, parse, Dispatcher(conn, failing));
    LoopKeepsRegistry(st, items, parse, Dispatcher(conn, failing));
    DisconnectKeepsMirror(run.state.manager, conn);
    Run(State(Subscriptions.Disconnect(run.state.manager, conn), run.state.table), run.effects + [SessionClosed], run.end, run.consumed, run.steps)
  }

  /** Disconnecting under the mirror invariant keeps it and leaves the connection in no chat. */
  lemma DisconnectKeepsMirror(m: Manager, conn: Connection)
    ensures Mirror(m) ==> Mirror(Subscriptions.Disconnect(m, conn)) && forall x :: !Listed(Subscriptions.Disconnect(m, conn), x, conn.id)
  {
    if Mirror(m) {
      Subscriptions.OperationsKeepMirror(m, conn, "");
      Subscriptions.DisconnectForgetsConnection(m, conn);
    }
  }
}
