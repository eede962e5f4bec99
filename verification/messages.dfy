/**
 * The messages use case (`src/use_case/messages.rs`): the three reply
 * builders, message validation and the history replay loop.
 */
module Messages {
  import opened Wrappers
  import opened Base64
  import opened Wire
  import opened Responses
  import opened Store
  import opened Json

  /** Page size of every history fetch. */
  const MESSAGES_LIMIT: nat := 100

  /**
   * A reply as the use case builds it: each envelope carries its own outer
   * `rtype` next to the detail struct.
   */
  datatype Outgoing =
    | WaitEventResponse(rtype: string, waitDetail: WaitEventDetail)
    | NewEventResponse(rtype: string, newDetail: NewEventDetail)
    | StatusReply(rtype: string, status: bool)

  /** `wait_event_response`: tells the client that history has been replayed for the chat. */
  function WaitEventFor(chatId: string): (o: Outgoing)
    ensures o.WaitEventResponse? && o.rtype == "event"
    ensures o.waitDetail.rtype == "wait" && o.waitDetail.chatId == chatId
  {
    WaitEventResponse("event", WaitEventDetail("wait", chatId))
  }

  /** `new_event_response`: forwards one message unchanged. */
  function NewEventFor(m: OutcomeMessage): (o: Outgoing)
    ensures o.NewEventResponse? && o.rtype == "event"
    ensures o.newDetail.rtype == "new" && o.newDetail.message == m
  {
    NewEventResponse("event", NewEventDetail("new", m))
  }

  /** `status_response`. */
  function StatusFor(status: bool): (o: Outgoing)
    ensures o.StatusReply? && o.rtype == "response" && o.status == status
  {
    StatusReply("response", status)
  }

  /**
   * The wire object of an envelope, rendered from its own fields. The outer
   * structs' declarations are not part of this model: their `rtype` is taken
   * to be renamed "type" like every `rtype` of `response.rs`, and the detail
   * goes under the field name `event` that the builders fill in. The detail
   * structs render as their `response.rs` derives do.
   */
  function OutgoingToJson(o: Outgoing): (j: Json)
    ensures j.JObject? && Get(j, "type") == Some(JString(o.rtype))
    ensures o.WaitEventResponse? ==>
      Keys(j.members) == ["type", "event"] && Get(j, "event") == Some(PayloadToJson(WaitEvent(o.waitDetail)))
    ensures o.NewEventResponse? ==>
      Keys(j.members) == ["type", "event"] && Get(j, "event") == Some(PayloadToJson(NewEvent(o.newDetail)))
    ensures o.StatusReply? ==> Keys(j.members) == ["type", "status"] && Get(j, "status") == Some(JBool(o.status))
  {
    var j := match o
      case WaitEventResponse(t, d) => JObject([Member("type", JString(t)), Member("event", PayloadToJson(WaitEvent(d)))])
      case NewEventResponse(t, d) => JObject([Member("type", JString(t)), Member("event", PayloadToJson(NewEvent(d)))])
      case StatusReply(t, b) => JObject([Member("type", JString(t)), Member("status", JBool(b))]);
    FieldOfDistinctKeys(j.members, 0);
    FieldOfDistinctKeys(j.members, 1);
    j
  }

  /**
   * Reads an envelope back. The server never parses its own replies; this
   * reader exists to show that `OutgoingToJson` loses nothing. A `status`
   * key marks the status reply, and a `message` key inside the event marks
   * a new-event reply.
   */
  function OutgoingFromJson(j: Json): (r: Option<Outgoing>)
    ensures r.Some? ==> Get(j, "type") == Some(JString(r.value.rtype))
    ensures r.Some? && r.value.StatusReply? ==> Get(j, "status") == Some(JBool(r.value.status))
  {
    var rtype :- AsString(Get(j, "type"));
    if Get(j, "status").Some? then
      var b := Get(j, "status").value;
      if b.JBool? then Some(StatusReply(rtype, b.b)) else None
    else
      var e :- Get(j, "event");
      var kind :- AsString(Get(e, "type"));
      if Get(e, "message").Some? then
        var m :- OutcomeFromJson(Get(e, "message").value);
        Some(NewEventResponse(rtype, NewEventDetail(kind, m)))
      else
        var chatId :- AsString(Get(e, "queueId"));
        Some(WaitEventResponse(rtype, WaitEventDetail(kind, chatId)))
  }

  /** No envelope loses information on the wire. */
  lemma OutgoingRoundTrip(o: Outgoing)
    ensures OutgoingFromJson(OutgoingToJson(o)) == Some(o)
  {
    match o
    case StatusReply(_, _) =>
    case WaitEventResponse(t, d) => WaitRoundTrip(t, d);
    case NewEventResponse(t, d) => NewRoundTrip(t, d);
  }

  /** An event envelope has no `status` key. */
  lemma EventHasNoStatus(t: string, e: Json)
    ensures Get(JObject([Member("type", JString(t)), Member("event", e)]), "status") == None
  {
    var ms := [Member("type", JString(t)), Member("event", e)];
    assert (set i | 0 <= i < |ms| && ms[i].key == "status") == {};
  }

  lemma WaitRoundTrip(t: string, d: WaitEventDetail)
    ensures OutgoingFromJson(OutgoingToJson(WaitEventResponse(t, d))) == Some(WaitEventResponse(t, d))
  {
    var e := PayloadToJson(WaitEvent(d));
    var j := OutgoingToJson(WaitEventResponse(t, d));
    assert j == JObject([Member("type", JString(t)), Member("event", e)]);
    EventHasNoStatus(t, e);
    FieldOfDistinctKeys(e.members, 0);
    FieldOfDistinctKeys(e.members, 1);
    assert Get(e, "message") == None by {
      assert (set i | 0 <= i < |e.members| && e.members[i].key == "message") == {};
    }
    assert AsString(Get(j, "type")) == Some(t);
    assert Get(j, "event") == Some(e);
    assert AsString(Get(e, "type")) == Some(d.rtype);
    assert AsString(Get(e, "queueId")) == Some(d.chatId);
  }

  lemma NewRoundTrip(t: string, d: NewEventDetail)
    ensures OutgoingFromJson(OutgoingToJson(NewEventResponse(t, d))) == Some(NewEventResponse(t, d))
  {
    var e := PayloadToJson(NewEvent(d));
    var j := OutgoingToJson(NewEventResponse(t, d));
    assert j == JObject([Member("type", JString(t)), Member("event", e)]);
    EventHasNoStatus(t, e);
    NewDetailFields(d);
    assert AsString(Get(j, "type")) == Some(t);
    assert Get(j, "event") == Some(e);
    assert AsString(Get(e, "type")) == Some(d.rtype);
  }

  lemma NewDetailFields(d: NewEventDetail)
    ensures Get(PayloadToJson(NewEvent(d)), "type") == Some(JString(d.rtype))
    ensures Get(PayloadToJson(NewEvent(d)), "message").Some?
    ensures OutcomeFromJson(Get(PayloadToJson(NewEvent(d)), "message").value) == Some(d.message)
  {
    var e := PayloadToJson(NewEvent(d));
    assert Get(e, "message") == Some(OutcomeToJson(d.message));
    OutcomeRoundTrip(d.message);
  }

  /**
   * What the three builders put on the wire: the event replies nest their
   * detail under `event`, the status reply is flat. The outer tags are the
   * ones `SeedResponse` uses for the same variants, yet no envelope renders
   * as the `SeedResponse` of its detail.
   */
  lemma BuildersOnWire(chatId: string, m: OutcomeMessage, status: bool)
    ensures OutgoingToJson(WaitEventFor(chatId)) ==
      JObject([Member("type", JString("event")),
               Member("event", JObject([Member("type", JString("wait")), Member("queueId", JString(chatId))]))])
    ensures OutgoingToJson(NewEventFor(m)) ==
      JObject([Member("type", JString("event")),
               Member("event", JObject([Member("type", JString("new")), Member("message", OutcomeToJson(m))]))])
    ensures OutgoingToJson(StatusFor(status)) ==
      JObject([Member("type", JString("response")), Member("status", JBool(status))])
    ensures WaitEventFor(chatId).rtype == Tag(WaitEvent(WaitEventFor(chatId).waitDetail))
    ensures NewEventFor(m).rtype == Tag(NewEvent(NewEventFor(m).newDetail))
    ensures StatusFor(status).rtype == Tag(Status(StatusResponse(status)))
    ensures OutgoingToJson(WaitEventFor(chatId)) != Responses.ToJson(WaitEvent(WaitEventFor(chatId).waitDetail))
    ensures OutgoingToJson(NewEventFor(m)) != Responses.ToJson(NewEvent(NewEventFor(m).newDetail))
    ensures OutgoingToJson(StatusFor(status)) != Responses.ToJson(Status(StatusResponse(status)))
  {
    assert OutgoingToJson(WaitEventFor(chatId)).members[1].key == "event";
    assert OutgoingToJson(NewEventFor(m)).members[1].key == "event";
    assert OutgoingToJson(StatusFor(status)).members[1].key == "status";
  }

  /** The exact text of a successful status reply. */
  lemma StatusReplyText()
    ensures Render(OutgoingToJson(StatusFor(true))) == "{\"type\":\"response\",\"status\":true}"
  {
    assert OutgoingToJson(StatusFor(true)) == StatusTrueObject();
    StatusObjectText();
  }

  function StatusTrueObject(): Json {
    JObject([Member("type", JString("response")), Member("status", JBool(true))])
  }

  lemma StatusObjectText()
    ensures Render(StatusTrueObject()) == "{\"type\":\"response\",\"status\":true}"
  {
    var j := StatusTrueObject();
    assert j.members[1..] == [Member("status", JBool(true))];
    TypeMemberText();
    StatusMemberText();
    assert RenderMembers(j, j.members) == "\"type\":\"response\"" + "," + "\"status\":true";
    StatusReplyPieces();
  }

  /** The member `"status":true`. */
  lemma StatusMemberText()
    ensures Quote("status") + ":" + Render(JBool(true)) == "\"status\":true"
  {
    QuotedStatus();
    assert "\"status\"" + ":" + "true" == "\"status\":true";
  }

  lemma StatusReplyPieces()
    ensures "{" + ("\"type\":\"response\"" + "," + "\"status\":true") + "}" == "{\"type\":\"response\",\"status\":true}"
  {
  }

  /**
   * `is_valid_message`: the chat id, the signature and the initialisation
   * vector must decode, checked in that order; the content is not looked at.
   */
  function IsValidMessage(m: OutcomeMessage): (valid: bool)
    ensures valid <==> (exists b :: Encode(b) == m.chatId) && (exists b :: Encode(b) == m.signature)
                       && (exists b :: Encode(b) == m.contentIv)
  {
    DecodeSucceedsIff(m.chatId);
    DecodeSucceedsIff(m.signature);
    DecodeSucceedsIff(m.contentIv);
    if Decode(m.chatId).Failure? then false
    else if Decode(m.signature).Failure? then false
    else if Decode(m.contentIv).Failure? then false
    else true
  }

  /** Validity does not depend on the content. */
  lemma ContentNeverChecked(m: OutcomeMessage, content: string)
    ensures IsValidMessage(m.(content := content)) == IsValidMessage(m)
  {
  }

  /** Whatever the store accepts was valid. */
  lemma InsertableIsValid(t: Table, m: Message)
    requires InsertMessage(t, m).Success?
    ensures IsValidMessage(ToOutcome(m))
  {
    EncodeDecode(m.chatId);
    EncodeDecode(m.signature);
    EncodeDecode(m.contentIv);
  }

  /** A message that passes validation but that no store accepts: its content is not base64. */
  lemma ValidButNotInsertable() returns (m: Message)
    ensures IsValidMessage(ToOutcome(m))
    ensures forall t :: InsertMessage(t, m) == Failure(InvalidBase64(InvalidLength))
  {
    m := Message(1, "", "", "A", "");
    assert Encode([]) == "";
    assert Decode("A") == Failure(InvalidLength);
  }

  /** One new-event reply per message of a page; their order is not part of the model. */
  function Announce(page: seq<OutcomeMessage>): (sent: multiset<Outgoing>)
    ensures |sent| == |page|
    ensures forall o :: o in sent <==> exists i :: 0 <= i < |page| && o == NewEventFor(page[i])
    ensures forall m :: sent[NewEventFor(m)] == multiset(page)[m]
    decreases |page|
  {
    if |page| == 0 then multiset{}
    else
      var rest := Announce(page[1..]);
      assert page == [page[0]] + page[1..];
      AnnounceConsMembers(page[0], page[1..], rest);
      AnnounceCons(page[0], page[1..], rest);
      multiset{NewEventFor(page[0])} + rest
  }

  /** Putting one more message in front adds its event and nothing else. */
  lemma AnnounceConsMembers(p: OutcomeMessage, tail: seq<OutcomeMessage>, rest: multiset<Outgoing>)
    requires forall o :: o in rest <==> exists i :: 0 <= i < |tail| && o == NewEventFor(tail[i])
    ensures forall o :: o in multiset{NewEventFor(p)} + rest <==>
      exists i :: 0 <= i < |[p] + tail| && o == NewEventFor(([p] + tail)[i])
  {
    var page := [p] + tail;
    forall o | o in multiset{NewEventFor(p)} + rest
      ensures exists i :: 0 <= i < |page| && o == NewEventFor(page[i])
    {
      if o != NewEventFor(p) {
        var i :| 0 <= i < |tail| && o == NewEventFor(tail[i]);
        assert page[i + 1] == tail[i];
      } else {
        assert page[0] == p;
      }
    }
    forall o | exists i :: 0 <= i < |page| && o == NewEventFor(page[i])
      ensures o in multiset{NewEventFor(p)} + rest
    {
      var i :| 0 <= i < |page| && o == NewEventFor(page[i]);
      if i > 0 {
        assert page[i] == tail[i - 1];
      }
    }
  }

  /** Putting one more message in front adds exactly one copy of its event. */
  lemma AnnounceCons(p: OutcomeMessage, tail: seq<OutcomeMessage>, rest: multiset<Outgoing>)
    requires forall m :: rest[NewEventFor(m)] == multiset(tail)[m]
    ensures forall m :: (multiset{NewEventFor(p)} + rest)[NewEventFor(m)] == multiset([p] + tail)[m]
  {
    assert multiset([p] + tail) == multiset{p} + multiset(tail);
    forall m
      ensures (multiset{NewEventFor(p)} + rest)[NewEventFor(m)] == multiset([p] + tail)[m]
    {
      if p != m {
        assert NewEventFor(p).newDetail.message != NewEventFor(m).newDetail.message;
      }
    }
  }

  /**
   * The history query `unread_message_response` is written against: the
   * page at a cursor and size, or `None` when the database reports an error.
   */
  type Fetch = (nat, nat) -> Option<seq<OutcomeMessage>>

  /**
   * A fetch that keeps to its query over a finite store: a page holds at
   * most the requested number of messages, each between the requested
   * cursor and the store's highest nonce `last`.
   */
  ghost predicate HonoursQuery(fetch: Fetch, last: nat) {
    && (forall c: nat, a: nat :: fetch(c, a).Some? ==> |fetch(c, a).value| <= a)
    && (forall c: nat, a: nat, i :: fetch(c, a).Some? && 0 <= i < |fetch(c, a).value| ==>
          c <= fetch(c, a).value[i].nonce <= last)
  }

  /**
   * One round of the replay loop: the cursor and size it fetched with and
   * the page (`None` when the fetch failed).
   */
  datatype Round = Round(cursor: nat, amount: nat, page: Option<seq<OutcomeMessage>>)

  /** The replies a round sends: one new event per fetched message, none after a failed fetch. */
  function Sent(r: Round): (sent: multiset<Outgoing>)
    ensures r.page.None? ==> sent == multiset{}
    ensures r.page.Some? ==> |sent| == |r.page.value|
    ensures r.page.Some? ==> forall o :: o in sent <==> exists i :: 0 <= i < |r.page.value| && o == NewEventFor(r.page.value[i])
    ensures r.page.Some? ==> forall m :: sent[NewEventFor(m)] == multiset(r.page.value)[m]
  {
    if r.page.Some? then Announce(r.page.value) else multiset{}
  }

  /** A round did what one pass of the loop body does: asked for `MESSAGES_LIMIT` messages at its cursor. */
  predicate FetchedRound(fetch: Fetch, r: Round) {
    r.amount == MESSAGES_LIMIT && r.page == fetch(r.cursor, r.amount)
  }

  /**
   * Every round but the last had a full page, and each round starts
   * `MESSAGES_LIMIT` further on than the one before.
   */
  predicate Advancing(rounds: seq<Round>, start: nat) {
    && (forall k :: 0 <= k < |rounds| - 1 ==> rounds[k].page.Some? && |rounds[k].page.value| == MESSAGES_LIMIT)
    && (forall k :: 0 <= k < |rounds| ==> rounds[k].cursor == start + k * MESSAGES_LIMIT)
  }

  /** Whether a round ends the replay: its fetch failed or its page was short. */
  predicate Stops(r: Round) {
    r.page.None? || |r.page.value| < MESSAGES_LIMIT
  }

  /** Exactly the last round stops the replay. */
  predicate Stopped(rounds: seq<Round>) {
    forall k :: 0 <= k < |rounds| ==> (Stops(rounds[k]) <==> k == |rounds| - 1)
  }

  /** A full first round in front of well-formed rounds from the next cursor gives well-formed rounds. */
  lemma ReplayCons(fetch: Fetch, round: Round, rest: seq<Round>, start: nat)
    requires round.cursor == start && FetchedRound(fetch, round)
    requires round.page.Some? && |round.page.value| == MESSAGES_LIMIT
    requires |rest| >= 1 && forall k :: 0 <= k < |rest| ==> FetchedRound(fetch, rest[k])
    requires Advancing(rest, start + MESSAGES_LIMIT) && Stopped(rest)
    ensures var rounds := [round] + rest;
      && (forall k :: 0 <= k < |rounds| ==> FetchedRound(fetch, rounds[k]))
      && Advancing(rounds, start) && Stopped(rounds)
  {
    var rounds := [round] + rest;
    assert rounds[|rounds| - 1] == rest[|rest| - 1];
    forall k | 1 <= k < |rounds|
      ensures rounds[k] == rest[k - 1]
      ensures rounds[k].cursor == start + k * MESSAGES_LIMIT
    {
      assert (k - 1) * MESSAGES_LIMIT + MESSAGES_LIMIT == k * MESSAGES_LIMIT;
    }
  }

  /** How far the cursor is below the store's highest nonce; it bounds the rounds left. */
  function Remaining(last: nat, cursor: nat): nat {
    if cursor <= last then last + 1 - cursor else 0
  }

  /** The rounds `unread_message_response` runs from `cursor`. */
  function Replay(fetch: Fetch, last: nat, cursor: nat): (rounds: seq<Round>)
    requires HonoursQuery(fetch, last)
    ensures |rounds| >= 1
    ensures forall k :: 0 <= k < |rounds| ==> FetchedRound(fetch, rounds[k])
    ensures Advancing(rounds, cursor) && Stopped(rounds)
    decreases Remaining(last, cursor)
  {
    var page := fetch(cursor, MESSAGES_LIMIT);
    var round := Round(cursor, MESSAGES_LIMIT, page);
    if page.None? || |page.value| < MESSAGES_LIMIT then [round]
    else
      assert cursor <= page.value[0].nonce <= last;
      var rest := Replay(fetch, last, cursor + MESSAGES_LIMIT);
      ReplayCons(fetch, round, rest, cursor);
      [round] + rest
  }

  /**
   * `unread_message_response`: fetch a page of `MESSAGES_LIMIT` from the
   * cursor, reply once per message, stop after a short page or a failed
   * fetch, otherwise advance the cursor by `MESSAGES_LIMIT`.
   */
  method UnreadMessageResponse(fetch: Fetch, last: nat, nonce: nat) returns (rounds: seq<Round>)
    requires HonoursQuery(fetch, last)
    ensures rounds == Replay(fetch, last, nonce)
  {
    rounds := [];
    var cursor: nat := nonce;
    while true
      invariant rounds + Replay(fetch, last, cursor) == Replay(fetch, last, nonce)
      decreases Remaining(last, cursor)
    {
      var page := fetch(cursor, MESSAGES_LIMIT);
      var round := Round(cursor, MESSAGES_LIMIT, page);
      if page.None? || |page.value| < MESSAGES_LIMIT {
        LastRound(fetch, last, cursor, rounds, Replay(fetch, last, nonce));
        rounds := rounds + [round];
        break;
      }
      NextRound(fetch, last, cursor, rounds, Replay(fetch, last, nonce));
      rounds := rounds + [round];
      cursor := cursor + MESSAGES_LIMIT;
    }
  }

  /** A failed fetch or a short page is the last round. */
  lemma LastRound(fetch: Fetch, last: nat, cursor: nat, done: seq<Round>, all: seq<Round>)
    requires HonoursQuery(fetch, last) && done + Replay(fetch, last, cursor) == all
    requires fetch(cursor, MESSAGES_LIMIT).None? || |fetch(cursor, MESSAGES_LIMIT).value| < MESSAGES_LIMIT
    ensures done + [Round(cursor, MESSAGES_LIMIT, fetch(cursor, MESSAGES_LIMIT))] == all
  {
  }

  /** After a full page the replay goes on from the next cursor, which is closer to the end. */
  lemma NextRound(fetch: Fetch, last: nat, cursor: nat, done: seq<Round>, all: seq<Round>)
    requires HonoursQuery(fetch, last) && done + Replay(fetch, last, cursor) == all
    requires fetch(cursor, MESSAGES_LIMIT).Some? && |fetch(cursor, MESSAGES_LIMIT).value| >= MESSAGES_LIMIT
    ensures done + [Round(cursor, MESSAGES_LIMIT, fetch(cursor, MESSAGES_LIMIT))] + Replay(fetch, last, cursor + MESSAGES_LIMIT) == all
    ensures Remaining(last, cursor + MESSAGES_LIMIT) < Remaining(last, cursor)
  {
    var page := fetch(cursor, MESSAGES_LIMIT).value;
    assert cursor <= page[0].nonce <= last;
    var round := Round(cursor, MESSAGES_LIMIT, fetch(cursor, MESSAGES_LIMIT));
    assert Replay(fetch, last, cursor) == [round] + Replay(fetch, last, cursor + MESSAGES_LIMIT);
    assert done + [round] + Replay(fetch, last, cursor + MESSAGES_LIMIT) == done + ([round] + Replay(fetch, last, cursor + MESSAGES_LIMIT));
  }

  /** The store's history query, failing at the cursors in `failing`. */
  function StoreFetch(t: Table, chat: seq<byte>, failing: set<nat>): Fetch {
    (c: nat, a: nat) => if c in failing then None else Some(FetchHistory(t, chat, c, a))
  }

  /** The query fails exactly at the injected cursors and otherwise returns the store's page. */
  lemma StoreFetchAnswers(t: Table, chat: seq<byte>, failing: set<nat>)
    ensures forall c: nat, a: nat :: StoreFetch(t, chat, failing)(c, a).None? <==> c in failing
    ensures forall c: nat, a: nat :: StoreFetch(t, chat, failing)(c, a).Some? ==>
      StoreFetch(t, chat, failing)(c, a).value == FetchHistory(t, chat, c, a)
  {
  }

  /** The store's query keeps to the cursor and to the chat's last nonce. */
  lemma StoreFetchHonoursQuery(t: Table, chat: seq<byte>, failing: set<nat>)
    ensures HonoursQuery(StoreFetch(t, chat, failing), GetLastNonceOrZero(t, chat))
  {
    var fetch := StoreFetch(t, chat, failing);
    forall c: nat, a: nat, i | fetch(c, a).Some? && 0 <= i < |fetch(c, a).value|
      ensures c <= fetch(c, a).value[i].nonce <= GetLastNonceOrZero(t, chat)
    {
      PageWithinChat(t, chat, c, a);
    }
    assert forall c: nat, a: nat :: fetch(c, a).Some? ==> |fetch(c, a).value| <= a;
  }
}
