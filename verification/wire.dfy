/**
 * Wire shapes of chat messages (`src/seed/entity/message.rs`) and the
 * decoded client frame that the service dispatches on.
 */
module Wire {
  import opened Wrappers
  import opened Json

  /** A client-authored chat message; every string field carries base64. */
  datatype Message = Message(nonce: nat, chatId: string, signature: string, content: string, contentIv: string)

  /** A message as the server sends it back; same fields as `Message`. */
  datatype OutcomeMessage = OutcomeMessage(nonce: nat, chatId: string, signature: string, content: string, contentIv: string)

  /** The `{type, message}` envelope a client sends. */
  datatype IncomeMessage = IncomeMessage(rtype: string, message: Message)

  /**
   * The decoded client frame the connection handler dispatches on (the
   * protocol crate's `IncomeMessage` enum); `NoneMessage` is its `None` variant.
   */
  datatype Incoming =
    | Ping
    | Send(msg: Message)
    | Subscribe(msg: Message)
    | Unsubscribe(msg: Message)
    | NoneMessage

  /** The field-by-field conversion from `Message` to `OutcomeMessage`. */
  function ToOutcome(m: Message): (o: OutcomeMessage)
    ensures o.nonce == m.nonce && o.chatId == m.chatId && o.signature == m.signature
    ensures o.content == m.content && o.contentIv == m.contentIv
  {
    OutcomeMessage(m.nonce, m.chatId, m.signature, m.content, m.contentIv)
  }

  /** The five wire keys of a message, in declaration order. */
  const MESSAGE_KEYS: seq<string> := ["nonce", "queueId", "signature", "content", "contentIV"]

  function MessageFields(nonce: nat, chatId: string, signature: string, content: string, contentIv: string): (j: Json)
    ensures j.JObject? && Keys(j.members) == MESSAGE_KEYS
  {
    JObject([
      Member("nonce", JNumber(nonce)),
      Member("queueId", JString(chatId)),
      Member("signature", JString(signature)),
      Member("content", JString(content)),
      Member("contentIV", JString(contentIv))
    ])
  }

  function AsNumber(o: Option<Json>): Option<nat> {
    if o.Some? && o.value.JNumber? then Some(o.value.n) else None
  }

  function AsString(o: Option<Json>): Option<string> {
    if o.Some? && o.value.JString? then Some(o.value.s) else None
  }

  /** `j` holds the five message fields under their wire keys, each key exactly once. */
  predicate Carries(j: Json, nonce: nat, chatId: string, signature: string, content: string, contentIv: string) {
    && Get(j, "nonce") == Some(JNumber(nonce))
    && Get(j, "queueId") == Some(JString(chatId))
    && Get(j, "signature") == Some(JString(signature))
    && Get(j, "content") == Some(JString(content))
    && Get(j, "contentIV") == Some(JString(contentIv))
  }

  /** A key the reader needs is absent or repeated. */
  predicate LacksMessageKey(j: Json) {
    Get(j, "nonce").None? || Get(j, "queueId").None? || Get(j, "signature").None?
    || Get(j, "content").None? || Get(j, "contentIV").None?
  }

  /** Derived `Serialize`: the five fields in declaration order, under their renamed keys. */
  function MessageToJson(m: Message): (j: Json)
    ensures j.JObject? && Keys(j.members) == MESSAGE_KEYS
    ensures Carries(j, m.nonce, m.chatId, m.signature, m.content, m.contentIv)
  {
    ReadMessageFields(m.nonce, m.chatId, m.signature, m.content, m.contentIv);
    MessageFields(m.nonce, m.chatId, m.signature, m.content, m.contentIv)
  }

  /** Derived `Deserialize`: every key exactly once, with the right kind of value. */
  function MessageFromJson(j: Json): (r: Option<Message>)
    ensures r.Some? ==> Carries(j, r.value.nonce, r.value.chatId, r.value.signature, r.value.content, r.value.contentIv)
    ensures LacksMessageKey(j) ==> r.None?
  {
    var nonce :- AsNumber(Get(j, "nonce"));
    var chatId :- AsString(Get(j, "queueId"));
    var signature :- AsString(Get(j, "signature"));
    var content :- AsString(Get(j, "content"));
    var contentIv :- AsString(Get(j, "contentIV"));
    Some(Message(nonce, chatId, signature, content, contentIv))
  }

  /** Same derive as `Message`, so the same object. */
  function OutcomeToJson(m: OutcomeMessage): (j: Json)
    ensures j == MessageToJson(Message(m.nonce, m.chatId, m.signature, m.content, m.contentIv))
    ensures Carries(j, m.nonce, m.chatId, m.signature, m.content, m.contentIv)
  {
    MessageFields(m.nonce, m.chatId, m.signature, m.content, m.contentIv)
  }

  function OutcomeFromJson(j: Json): (r: Option<OutcomeMessage>)
    ensures r.Some? ==> Carries(j, r.value.nonce, r.value.chatId, r.value.signature, r.value.content, r.value.contentIv)
    ensures LacksMessageKey(j) ==> r.None?
  {
    var m :- MessageFromJson(j);
    Some(ToOutcome(m))
  }

  function IncomeToJson(i: IncomeMessage): (j: Json)
    ensures j.JObject? && Keys(j.members) == ["type", "message"]
    ensures Get(j, "type") == Some(JString(i.rtype)) && Get(j, "message") == Some(MessageToJson(i.message))
  {
    ReadPair("type", JString(i.rtype), "message", MessageToJson(i.message));
    JObject([Member("type", JString(i.rtype)), Member("message", MessageToJson(i.message))])
  }

  function IncomeFromJson(j: Json): (r: Option<IncomeMessage>)
    ensures r.Some? ==> Get(j, "type") == Some(JString(r.value.rtype)) && Get(j, "message").Some?
    ensures r.Some? ==> MessageFromJson(Get(j, "message").value) == Some(r.value.message)
  {
    var rtype :- AsString(Get(j, "type"));
    var mj :- Get(j, "message");
    var m :- MessageFromJson(mj);
    Some(IncomeMessage(rtype, m))
  }

  /** Reading back the five message fields written by `MessageFields`. */
  lemma ReadMessageFields(nonce: nat, chatId: string, signature: string, content: string, contentIv: string)
    ensures Carries(MessageFields(nonce, chatId, signature, content, contentIv), nonce, chatId, signature, content, contentIv)
  {
    var ms := MessageFields(nonce, chatId, signature, content, contentIv).members;
    FieldOfDistinctKeys(ms, 0);
    FieldOfDistinctKeys(ms, 1);
    FieldOfDistinctKeys(ms, 2);
    FieldOfDistinctKeys(ms, 3);
    FieldOfDistinctKeys(ms, 4);
  }

  /** A message's wire object has exactly the keys nonce, queueId, signature, content, contentIV. */
  lemma MessageWireKeys(m: Message)
    ensures MessageToJson(m).JObject? && Keys(MessageToJson(m).members) == MESSAGE_KEYS
  {
  }

  /** Serialising then deserialising a `Message` restores every field. */
  lemma MessageRoundTrip(m: Message)
    ensures MessageFromJson(MessageToJson(m)) == Some(m)
  {
    var j := MessageToJson(m);
    ReadMessageFields(m.nonce, m.chatId, m.signature, m.content, m.contentIv);
    assert AsNumber(Get(j, "nonce")) == Some(m.nonce);
    assert AsString(Get(j, "queueId")) == Some(m.chatId);
    assert AsString(Get(j, "signature")) == Some(m.signature);
    assert AsString(Get(j, "content")) == Some(m.content);
    assert AsString(Get(j, "contentIV")) == Some(m.contentIv);
  }

  /** Serialising then deserialising an `OutcomeMessage` restores every field. */
  lemma OutcomeRoundTrip(m: OutcomeMessage)
    ensures OutcomeFromJson(OutcomeToJson(m)) == Some(m)
  {
    var plain := Message(m.nonce, m.chatId, m.signature, m.content, m.contentIv);
    assert OutcomeToJson(m) == MessageToJson(plain);
    MessageRoundTrip(plain);
  }

  /** `OutcomeMessage` is wire-identical to `Message`: same keys, same values, same reader. */
  lemma OutcomeSameWire(m: Message, j: Json)
    ensures OutcomeToJson(ToOutcome(m)) == MessageToJson(m)
    ensures OutcomeFromJson(j).Some? <==> MessageFromJson(j).Some?
    ensures OutcomeFromJson(j).Some? ==> OutcomeFromJson(j).value == ToOutcome(MessageFromJson(j).value)
  {
  }

  /** Serialising then deserialising the `{type, message}` envelope restores both fields. */
  lemma IncomeRoundTrip(i: IncomeMessage)
    ensures IncomeFromJson(IncomeToJson(i)) == Some(i)
  {
    var j := IncomeToJson(i);
    MessageRoundTrip(i.message);
    assert AsString(Get(j, "type")) == Some(i.rtype);
    assert Get(j, "message") == Some(MessageToJson(i.message));
  }
}
