/**
 * The server's response envelope (`src/seed/entity/response.rs`): an
 * adjacently tagged enum, rendered as `{"type": <tag>, "response": <payload>}`.
 */
module Responses {
  import opened Wrappers
  import opened Json
  import opened Wire

  datatype NewEventDetail = NewEventDetail(rtype: string, message: OutcomeMessage)
  datatype WaitEventDetail = WaitEventDetail(rtype: string, chatId: string)
  datatype StatusResponse = StatusResponse(status: bool)

  datatype SeedResponse =
    | NewEvent(newEvent: NewEventDetail)
    | WaitEvent(waitEvent: WaitEventDetail)
    | Status(statusResponse: StatusResponse)

  /** The variant's rename: both event variants are renamed to "event". */
  function Tag(r: SeedResponse): (tag: string)
    ensures tag == "response" <==> r.Status?
    ensures tag == "event" <==> !r.Status?
  {
    match r
    case NewEvent(_) => "event"
    case WaitEvent(_) => "event"
    case Status(_) => "response"
  }

  /** The payload is the variant's struct, serialised as derived. */
  function PayloadToJson(r: SeedResponse): (p: Json)
    ensures p.JObject?
    ensures r.NewEvent? ==> Get(p, "type") == Some(JString(r.newEvent.rtype))
                            && Get(p, "message") == Some(OutcomeToJson(r.newEvent.message))
    ensures r.WaitEvent? ==> Get(p, "type") == Some(JString(r.waitEvent.rtype))
                             && Get(p, "queueId") == Some(JString(r.waitEvent.chatId))
    ensures r.Status? ==> Get(p, "status") == Some(JBool(r.statusResponse.status))
  {
    match r
    case NewEvent(d) =>
      ReadPair("type", JString(d.rtype), "message", OutcomeToJson(d.message));
      JObject([Member("type", JString(d.rtype)), Member("message", OutcomeToJson(d.message))])
    case WaitEvent(d) =>
      ReadPair("type", JString(d.rtype), "queueId", JString(d.chatId));
      JObject([Member("type", JString(d.rtype)), Member("queueId", JString(d.chatId))])
    case Status(s) =>
      FieldOfDistinctKeys([Member("status", JBool(s.status))], 0);
      JObject([Member("status", JBool(s.status))])
  }

  /** Adjacent tagging: the tag under "type", the payload under "response". */
  function ToJson(r: SeedResponse): (j: Json)
    ensures j.JObject? && Keys(j.members) == ["type", "response"]
    ensures Get(j, "type") == Some(JString(Tag(r))) && Get(j, "response") == Some(PayloadToJson(r))
  {
    ReadPair("type", JString(Tag(r)), "response", PayloadToJson(r));
    JObject([Member("type", JString(Tag(r))), Member("response", PayloadToJson(r))])
  }

  /**
   * Reads a rendered response back. `SeedResponse` derives only `Serialize`,
   * so this reader is the model's own: it exists to show that the rendering
   * loses nothing. The tag alone cannot tell the two event variants apart,
   * so the payload's keys decide.
   */
  function FromJson(j: Json): (r: Option<SeedResponse>)
    ensures r.Some? ==> Get(j, "type") == Some(JString(Tag(r.value)))
    ensures r.Some? ==> Get(j, "response").Some?
  {
    var tag :- AsString(Get(j, "type"));
    var p :- Get(j, "response");
    if tag == "response" then
      if p.JObject? && |p.members| == 1 && p.members[0].key == "status" && p.members[0].value.JBool? then
        Some(Status(StatusResponse(p.members[0].value.b)))
      else None
    else if tag == "event" then
      var rtype :- AsString(Get(p, "type"));
      if Get(p, "message").Some? then
        var m :- OutcomeFromJson(Get(p, "message").value);
        Some(NewEvent(NewEventDetail(rtype, m)))
      else
        var chatId :- AsString(Get(p, "queueId"));
        Some(WaitEvent(WaitEventDetail(rtype, chatId)))
    else None
  }

  /** Every variant is an object with exactly the keys "type" (its tag) and "response" (its payload). */
  lemma AdjacentlyTagged(r: SeedResponse)
    ensures ToJson(r).JObject? && Keys(ToJson(r).members) == ["type", "response"]
    ensures Get(ToJson(r), "type") == Some(JString(Tag(r)))
    ensures Get(ToJson(r), "response") == Some(PayloadToJson(r))
    ensures Tag(r) == "event" || Tag(r) == "response"
  {
  }

  /** `NewEvent` and `WaitEvent` carry the same tag. */
  lemma EventTagShared(n: NewEventDetail, w: WaitEventDetail)
    ensures ToJson(NewEvent(n)).members[0] == ToJson(WaitEvent(w)).members[0]
  {
  }

  /** Payload shapes: `NewEventDetail` as {type, message}, `WaitEventDetail` as {type, queueId}, `StatusResponse` as {status}. */
  lemma PayloadKeys(r: SeedResponse)
    ensures PayloadToJson(r).JObject?
    ensures r.NewEvent? ==> Keys(PayloadToJson(r).members) == ["type", "message"]
    ensures r.WaitEvent? ==> Keys(PayloadToJson(r).members) == ["type", "queueId"]
    ensures r.Status? ==> Keys(PayloadToJson(r).members) == ["status"]
  {
    match r
    case NewEvent(d) =>
      ReadPair("type", JString(d.rtype), "message", OutcomeToJson(d.message));
      assert PayloadToJson(r) == JObject([Member("type", JString(d.rtype)), Member("message", OutcomeToJson(d.message))]);
    case WaitEvent(d) =>
      ReadPair("type", JString(d.rtype), "queueId", JString(d.chatId));
      assert PayloadToJson(r) == JObject([Member("type", JString(d.rtype)), Member("queueId", JString(d.chatId))]);
    case Status(st) =>
      assert PayloadToJson(r) == JObject([Member("status", JBool(st.status))]);
  }

  /** No information is lost: the rendered object determines the response. */
  lemma ResponseRoundTrip(r: SeedResponse)
    ensures FromJson(ToJson(r)) == Some(r)
  {
    match r
    case NewEvent(d) => NewEventRoundTrip(d);
    case WaitEvent(d) => WaitEventRoundTrip(d);
    case Status(st) =>
      var p := PayloadToJson(r);
      assert Get(ToJson(r), "response") == Some(p);
      assert AsString(Get(ToJson(r), "type")) == Some("response");
      assert p.members == [Member("status", JBool(st.status))];
  }

  lemma NewEventRoundTrip(d: NewEventDetail)
    ensures FromJson(ToJson(NewEvent(d))) == Some(NewEvent(d))
  {
    var j := ToJson(NewEvent(d));
    var p := PayloadToJson(NewEvent(d));
    OutcomeRoundTrip(d.message);
    assert Get(j, "response") == Some(p);
    assert AsString(Get(j, "type")) == Some("event");
    assert AsString(Get(p, "type")) == Some(d.rtype);
  }

  lemma WaitEventRoundTrip(d: WaitEventDetail)
    ensures FromJson(ToJson(WaitEvent(d))) == Some(WaitEvent(d))
  {
    var j := ToJson(WaitEvent(d));
    var p := PayloadToJson(WaitEvent(d));
    assert Get(j, "response") == Some(p);
    assert AsString(Get(j, "type")) == Some("event");
    assert AsString(Get(p, "type")) == Some(d.rtype);
    assert AsString(Get(p, "queueId")) == Some(d.chatId);
    assert Get(p, "message") == None by {
      assert p.members == [Member("type", JString(d.rtype)), Member("queueId", JString(d.chatId))];
      assert (set i | 0 <= i < |p.members| && p.members[i].key == "message") == {};
    }
  }

  /** Distinct responses render differently. */
  lemma ToJsonInjective(r1: SeedResponse, r2: SeedResponse)
    requires ToJson(r1) == ToJson(r2)
    ensures r1 == r2
  {
    ResponseRoundTrip(r1);
    ResponseRoundTrip(r2);
  }

  /** The exact text of a successful status. */
  lemma StatusTrueText()
    ensures Render(ToJson(Status(StatusResponse(true)))) == "{\"type\":\"response\",\"response\":{\"status\":true}}"
  {
    var outer := ToJson(Status(StatusResponse(true)));
    OuterMembersText();
    assert Render(outer) == "{" + ("\"type\":\"response\"" + "," + "\"response\":{\"status\":true}") + "}";
    OuterWrapped();
  }

  lemma AppendAssoc(a: string, b: string, c: string)
    ensures a + (b + c) == (a + b) + c
  {
  }

  lemma OuterWrapped()
    ensures "{" + ("\"type\":\"response\"" + "," + "\"response\":{\"status\":true}") + "}" == "{\"type\":\"response\",\"response\":{\"status\":true}}"
  {
    AppendAssoc("{", "\"type\":\"response\"" + ",", "\"response\":{\"status\":true}");
    AppendAssoc("{", "\"type\":\"response\"", ",");
    OuterPiece1();
    OuterPiece2();
    OuterPiece3();
    OuterPiece4();
  }

  lemma OuterPiece1()
    ensures "{" + "\"type\":\"response\"" == "{\"type\":\"response\""
  {
  }

  lemma OuterPiece2()
    ensures "{\"type\":\"response\"" + "," == "{\"type\":\"response\","
  {
  }

  lemma OuterPiece3()
    ensures "{\"type\":\"response\"," + "\"response\":{\"status\":true}" == "{\"type\":\"response\",\"response\":{\"status\":true}"
  {
  }

  lemma OuterPiece4()
    ensures "{\"type\":\"response\",\"response\":{\"status\":true}" + "}" == "{\"type\":\"response\",\"response\":{\"status\":true}}"
  {
  }

  /** The payload object `{"status":true}`. */
  lemma InnerText()
    ensures Render(PayloadToJson(Status(StatusResponse(true)))) == "{\"status\":true}"
  {
    var inner := PayloadToJson(Status(StatusResponse(true)));
    QuotedStatus();
    assert RenderMembers(inner, inner.members) == "\"status\"" + ":" + "true";
    InnerPieces();
  }

  lemma InnerPieces()
    ensures "{" + ("\"status\"" + ":" + "true") + "}" == "{\"status\":true}"
  {
  }

  /** The members of the outer object, `"type":"response"` and `"response":{"status":true}`. */
  lemma OuterMembersText()
    ensures var outer := ToJson(Status(StatusResponse(true)));
      RenderMembers(outer, outer.members) == "\"type\":\"response\"" + "," + "\"response\":{\"status\":true}"
  {
    var outer := ToJson(Status(StatusResponse(true)));
    var ms := outer.members;
    assert ms[1..] == [Member("response", PayloadToJson(Status(StatusResponse(true))))];
    ResponseMemberText();
    TypeMemberText();
  }

  /** The member `"type":"response"`. */
  lemma TypeMemberText()
    ensures Quote("type") + ":" + Render(JString("response")) == "\"type\":\"response\""
  {
    QuotedType();
    QuotedResponse();
    TypePieces();
  }

  lemma TypePieces()
    ensures "\"type\"" + ":" + "\"response\"" == "\"type\":\"response\""
  {
  }

  /** The member `"response":{"status":true}`. */
  lemma ResponseMemberText()
    ensures Quote("response") + ":" + Render(PayloadToJson(Status(StatusResponse(true)))) == "\"response\":{\"status\":true}"
  {
    QuotedResponse();
    InnerText();
    ResponsePieces();
  }

  lemma ResponsePieces()
    ensures "\"response\"" + ":" + "{\"status\":true}" == "\"response\":{\"status\":true}"
  {
  }

  lemma QuotedType()
    ensures Quote("type") == "\"type\""
  {
    var s := "type";
    EscapePlain(s);
    assert Quote(s) == "\"" + s + "\"";
    TypeQuotePieces();
  }

  lemma TypeQuotePieces()
    ensures "\"" + "type" + "\"" == "\"type\""
  {
  }

  lemma QuotedResponse()
    ensures Quote("response") == "\"response\""
  {
    var s := "response";
    EscapePlain(s);
    assert Quote(s) == "\"" + s + "\"";
    ResponseQuotePieces();
  }

  lemma ResponseQuotePieces()
    ensures "\"" + "response" + "\"" == "\"response\""
  {
  }

  lemma QuotedStatus()
    ensures Quote("status") == "\"status\""
  {
    var s := "status";
    EscapePlain(s);
    assert Quote(s) == "\"" + s + "\"";
    StatusQuotePieces();
  }

  lemma StatusQuotePieces()
    ensures "\"" + "status" + "\"" == "\"status\""
  {
  }
}
