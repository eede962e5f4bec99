/**
 * The message store (`src/infrastructure/database.rs`) over an abstract
 * table: a sequence of rows in insertion order instead of a Postgres table.
 */
module Store {
  import opened Wrappers
  import opened Base64
  import opened Wire

  /** One row of the `messages` table; every column but `nonce` holds raw bytes. */
  datatype Row = Row(nonce: nat, chatId: seq<byte>, signature: seq<byte>, content: seq<byte>, contentIv: seq<byte>)

  type Table = seq<Row>

  /** The errors the store reports (the database error kinds and `SeedError::InvalidNonce`). */
  datatype StoreError = InvalidBase64(cause: DecodeError) | NotFound | InvalidNonce

  /** Whether any row belongs to `chat`. */
  predicate HasChat(t: Table, chat: seq<byte>) {
    exists i :: 0 <= i < |t| && t[i].chatId == chat
  }

  /**
   * `get_last_nonce`: `SELECT MAX(nonce) ... WHERE chat_id = $1`; a chat
   * with no rows gives SQL NULL, which the code turns into `NotFound`.
   */
  function GetLastNonce(t: Table, chat: seq<byte>): (r: Result<nat, StoreError>)
    ensures r.Failure? <==> !HasChat(t, chat)
    ensures r.Failure? ==> r.error == NotFound
    ensures r.Success? ==> exists i :: 0 <= i < |t| && t[i].chatId == chat && t[i].nonce == r.value
    ensures r.Success? ==> forall i :: 0 <= i < |t| && t[i].chatId == chat ==> t[i].nonce <= r.value
    decreases |t|
  {
    if |t| == 0 then Failure(NotFound)
    else
      var rest := GetLastNonce(t[1..], chat);
      assert forall i :: 1 <= i < |t| ==> t[i] == t[1..][i - 1];
      if t[0].chatId != chat then rest
      else if rest.Failure? then Success(t[0].nonce)
      else if rest.value < t[0].nonce then Success(t[0].nonce)
      else rest
  }

  /**
   * The documented `get_last_nonce`: the highest nonce of the chat, or 0
   * when the chat has no rows.
   */
  function GetLastNonceOrZero(t: Table, chat: seq<byte>): (r: nat)
    ensures !HasChat(t, chat) ==> r == 0
    ensures HasChat(t, chat) ==> exists i :: 0 <= i < |t| && t[i].chatId == chat && t[i].nonce == r
    ensures forall i :: 0 <= i < |t| && t[i].chatId == chat ==> t[i].nonce <= r
  {
    match GetLastNonce(t, chat)
    case Success(n) => n
    case Failure(_) => 0
  }

  /** `decode_base64` with its error lifted into the store's error type. */
  function DecodeColumn(s: string): (r: Result<seq<byte>, StoreError>)
    ensures r.Success? <==> Decode(s).Success?
    ensures r.Success? ==> Encode(r.value) == s
    ensures r.Failure? ==> r.error.InvalidBase64?
  {
    match Decode(s)
    case Success(b) => EncodeDecode(s); Success(b)
    case Failure(e) => Failure(InvalidBase64(e))
  }

  /** Whether all four base64 fields of `m` decode. */
  predicate FieldsDecode(m: Message) {
    Decode(m.chatId).Success? && Decode(m.signature).Success?
    && Decode(m.content).Success? && Decode(m.contentIv).Success?
  }

  /** Whether `row` holds exactly the bytes the fields of `m` encode. */
  predicate StoresFields(row: Row, m: Message) {
    Encode(row.chatId) == m.chatId && Encode(row.signature) == m.signature
    && Encode(row.content) == m.content && Encode(row.contentIv) == m.contentIv
  }

  /**
   * `insert_message` as written: the four fields are decoded in order, the
   * chat's last nonce is looked up, the message nonce must be one more than
   * it, and the new row's nonce column is bound to the last nonce.
   */
  function InsertMessage(t: Table, m: Message): (r: Result<Table, StoreError>)
    ensures r.Success? <==> FieldsDecode(m) && HasChat(t, Decode(m.chatId).value)
                            && m.nonce == GetLastNonceOrZero(t, Decode(m.chatId).value) + 1
    ensures !FieldsDecode(m) ==> r.Failure? && r.error.InvalidBase64?
    ensures FieldsDecode(m) && !HasChat(t, Decode(m.chatId).value) ==> r == Failure(NotFound)
    ensures r.Failure? && FieldsDecode(m) && HasChat(t, Decode(m.chatId).value) ==> r == Failure(InvalidNonce)
    ensures r.Success? ==> |r.value| == |t| + 1 && r.value[..|t|] == t
    ensures r.Success? ==> StoresFields(r.value[|t|], m) && r.value[|t|].nonce + 1 == m.nonce
  {
    var chat :- DecodeColumn(m.chatId);
    var signature :- DecodeColumn(m.signature);
    var content :- DecodeColumn(m.content);
    var contentIv :- DecodeColumn(m.contentIv);
    var last :- GetLastNonce(t, chat);
    if m.nonce != last + 1 then Failure(InvalidNonce)
    else Success(t + [Row(last, chat, signature, content, contentIv)])
  }

  /**
   * `insert_message` as its contract intends: an empty chat counts as last
   * nonce 0 and the row keeps the message's own nonce.
   */
  function InsertMessageIntended(t: Table, m: Message): (r: Result<Table, StoreError>)
    ensures r.Success? <==> FieldsDecode(m) && m.nonce == GetLastNonceOrZero(t, Decode(m.chatId).value) + 1
    ensures !FieldsDecode(m) ==> r.Failure? && r.error.InvalidBase64?
    ensures r.Failure? && FieldsDecode(m) ==> r == Failure(InvalidNonce)
    ensures r.Success? ==> |r.value| == |t| + 1 && r.value[..|t|] == t
    ensures r.Success? ==> StoresFields(r.value[|t|], m) && r.value[|t|].nonce == m.nonce
  {
    var chat :- DecodeColumn(m.chatId);
    var signature :- DecodeColumn(m.signature);
    var content :- DecodeColumn(m.content);
    var contentIv :- DecodeColumn(m.contentIv);
    var last := GetLastNonceOrZero(t, chat);
    if m.nonce != last + 1 then Failure(InvalidNonce)
    else Success(t + [Row(m.nonce, chat, signature, content, contentIv)])
  }

  /** A nonce attained by a row of the chat and bounding all of them is the last nonce. */
  lemma LastNonceIs(t: Table, chat: seq<byte>, i: nat)
    requires i < |t| && t[i].chatId == chat
    requires forall j :: 0 <= j < |t| && t[j].chatId == chat ==> t[j].nonce <= t[i].nonce
    ensures GetLastNonce(t, chat) == Success(t[i].nonce)
  {
  }

  /** Appending a row of `chat` whose nonce is at most the chat's maximum keeps that maximum. */
  lemma AppendBelowMax(t: Table, row: Row, chat: seq<byte>)
    requires HasChat(t, chat) && row.nonce <= GetLastNonceOrZero(t, chat)
    ensures GetLastNonce(t + [row], chat) == GetLastNonce(t, chat)
  {
    var n := GetLastNonceOrZero(t, chat);
    var i :| 0 <= i < |t| && t[i].chatId == chat && t[i].nonce == n;
    var u := t + [row];
    forall j | 0 <= j < |u| && u[j].chatId == chat
      ensures u[j].nonce <= u[i].nonce
    {
      if j < |t| {
        assert u[j] == t[j];
      }
    }
    LastNonceIs(u, chat, i);
  }

  /** The as-written insert leaves the chat's last nonce where it was. */
  lemma InsertKeepsLastNonce(t: Table, m: Message)
    requires InsertMessage(t, m).Success?
    ensures GetLastNonce(InsertMessage(t, m).value, Decode(m.chatId).value) == GetLastNonce(t, Decode(m.chatId).value)
  {
    var r := InsertMessage(t, m).value;
    assert r == t + [r[|t|]];
    AppendBelowMax(t, r[|t|], Decode(m.chatId).value);
  }

  /** So the as-written insert accepts the very same message again. */
  lemma InsertAcceptsReplay(t: Table, m: Message)
    requires InsertMessage(t, m).Success?
    ensures InsertMessage(InsertMessage(t, m).value, m).Success?
  {
    InsertKeepsLastNonce(t, m);
  }

  /** Applies the inserts in order; a rejected message leaves the table as it was. */
  function InsertAll(t: Table, ms: seq<Message>): (r: Table)
    ensures |t| <= |r| <= |t| + |ms| && r[..|t|] == t
    decreases |ms|
  {
    if |ms| == 0 then t
    else
      var next := InsertMessage(t, ms[0]);
      InsertAll(if next.Success? then next.value else t, ms[1..])
  }

  /** A chat without rows never gets one through the as-written insert. */
  lemma {:induction false} InsertsNeverStartAChat(t: Table, ms: seq<Message>, chat: seq<byte>)
    requires !HasChat(t, chat)
    ensures !HasChat(InsertAll(t, ms), chat)
    decreases |ms|
  {
    if |ms| > 0 {
      var next := InsertMessage(t, ms[0]);
      if next.Success? {
        assert Decode(ms[0].chatId).value != chat;
        var u := next.value;
        assert u == t + [u[|t|]];
        forall i | 0 <= i < |u|
          ensures u[i].chatId != chat
        {
          if i == |t| {
            assert Encode(u[i].chatId) == ms[0].chatId;
            DecodeEncode(u[i].chatId);
          }
        }
        InsertsNeverStartAChat(u, ms[1..], chat);
      } else {
        InsertsNeverStartAChat(t, ms[1..], chat);
      }
    }
  }

  /** Starting from an empty store, no sequence of inserts adds a row. */
  lemma EmptyStoreStaysEmpty(ms: seq<Message>)
    ensures InsertAll([], ms) == []
  {
    var r := InsertAll([], ms);
    if |r| > 0 {
      InsertsNeverStartAChat([], ms, r[0].chatId);
    }
  }

  /** The intended insert accepts nonce 1 as the first message of a chat. */
  lemma IntendedStartsChat(t: Table, m: Message)
    requires FieldsDecode(m) && !HasChat(t, Decode(m.chatId).value) && m.nonce == 1
    ensures InsertMessageIntended(t, m).Success?
  {
  }

  /** The intended insert moves the chat's last nonce to the message's nonce. */
  lemma IntendedAdvances(t: Table, m: Message)
    requires InsertMessageIntended(t, m).Success?
    ensures GetLastNonceOrZero(InsertMessageIntended(t, m).value, Decode(m.chatId).value) == m.nonce
  {
    var r := InsertMessageIntended(t, m).value;
    var chat := Decode(m.chatId).value;
    DecodeEncode(r[|t|].chatId);
    assert r[|t|].chatId == chat;
    forall i | 0 <= i < |r| && r[i].chatId == chat
      ensures r[i].nonce <= m.nonce
    {
      if i < |t| {
        assert r[i] == t[i];
      }
    }
  }

  /** So the intended insert rejects the same message a second time. */
  lemma IntendedRejectsReplay(t: Table, m: Message)
    requires InsertMessageIntended(t, m).Success?
    ensures InsertMessageIntended(InsertMessageIntended(t, m).value, m) == Failure(InvalidNonce)
  {
    IntendedAdvances(t, m);
  }

  /** Whether `x` passes the `WHERE chat_id = $1 AND nonce >= $2` clause. */
  predicate Selected(x: Row, chat: seq<byte>, from: nat) {
    x.chatId == chat && x.nonce >= from
  }

  /** The rows the `WHERE chat_id = $1 AND nonce >= $2` clause selects, in table order. */
  function Matching(t: Table, chat: seq<byte>, from: nat): (r: seq<Row>)
    ensures forall i :: 0 <= i < |r| ==> Selected(r[i], chat, from)
    ensures forall i :: 0 <= i < |r| ==> r[i] in t
    ensures forall i :: 0 <= i < |t| && Selected(t[i], chat, from) ==> t[i] in r
    ensures forall x :: multiset(r)[x] == if Selected(x, chat, from) then multiset(t)[x] else 0
    decreases |t|
  {
    if |t| == 0 then []
    else
      var init, last := t[..|t| - 1], t[|t| - 1];
      assert t == init + [last];
      if Selected(last, chat, from) then Matching(init, chat, from) + [last]
      else Matching(init, chat, from)
  }

  predicate Ascending(s: seq<Row>) {
    forall i, j :: 0 <= i < j < |s| ==> s[i].nonce <= s[j].nonce
  }

  /** Places `x` in front of the first row with a larger or equal nonce. */
  function InsertByNonce(x: Row, s: seq<Row>): (r: seq<Row>)
    requires Ascending(s)
    ensures Ascending(r)
    ensures multiset(r) == multiset(s) + multiset{x}
    ensures |r| == |s| + 1 && (r[0] == x || (|s| > 0 && r[0] == s[0]))
    decreases |s|
  {
    if |s| == 0 || x.nonce <= s[0].nonce then [x] + s
    else
      var rest := InsertByNonce(x, s[1..]);
      assert s == [s[0]] + s[1..];
      assert s[0].nonce <= rest[0].nonce;
      [s[0]] + rest
  }

  /** `ORDER BY nonce ASC`: an ascending permutation of its input. */
  function SortByNonce(s: seq<Row>): (r: seq<Row>)
    ensures Ascending(r)
    ensures multiset(r) == multiset(s)
    decreases |s|
  {
    if |s| == 0 then []
    else
      assert s == [s[0]] + s[1..];
      InsertByNonce(s[0], SortByNonce(s[1..]))
  }

  /** Membership in a selection survives reordering. */
  lemma SelectedPermutation(s: seq<Row>, r: seq<Row>, chat: seq<byte>, from: nat)
    requires multiset(r) == multiset(s)
    requires forall i :: 0 <= i < |s| ==> Selected(s[i], chat, from)
    ensures forall i :: 0 <= i < |r| ==> Selected(r[i], chat, from)
  {
    forall i | 0 <= i < |r|
      ensures Selected(r[i], chat, from)
    {
      assert r[i] in multiset(s);
    }
  }

  /** A prefix of an ascending sequence is ascending and a sub-multiset of it. */
  lemma TakePrefix(s: seq<Row>, k: nat)
    requires k <= |s|
    ensures multiset(s) == multiset(s[..k]) + multiset(s[k..])
    ensures Ascending(s) ==> Ascending(s[..k])
  {
    assert s == s[..k] + s[k..];
  }

  /** The rows `fetch_history` selects: matching, ascending, at most `amount`. */
  function HistoryRows(t: Table, chat: seq<byte>, from: nat, amount: nat): (r: seq<Row>)
    ensures |r| == if amount < |Matching(t, chat, from)| then amount else |Matching(t, chat, from)|
    ensures Ascending(r)
    ensures forall i :: 0 <= i < |r| ==> Selected(r[i], chat, from)
    ensures multiset(r) <= multiset(Matching(t, chat, from))
    ensures |r| < amount ==> multiset(r) == multiset(Matching(t, chat, from))
  {
    var matching := Matching(t, chat, from);
    var sorted := SortByNonce(matching);
    var k := if amount < |sorted| then amount else |sorted|;
    TakePrefix(sorted, k);
    SelectedPermutation(matching, sorted, chat, from);
    sorted[..k]
  }

  /** A full page holds the lowest nonces: every matching row left out is at least as high. */
  lemma HistoryTakesLowest(t: Table, chat: seq<byte>, from: nat, amount: nat)
    ensures var r := HistoryRows(t, chat, from, amount);
      forall x, i :: x in multiset(Matching(t, chat, from)) - multiset(r) && 0 <= i < |r| ==> r[i].nonce <= x.nonce
  {
    var matching := Matching(t, chat, from);
    var sorted := SortByNonce(matching);
    var k := if amount < |sorted| then amount else |sorted|;
    var r := HistoryRows(t, chat, from, amount);
    assert r == sorted[..k];
    forall x | x in multiset(matching) - multiset(r)
      ensures forall i :: 0 <= i < |r| ==> r[i].nonce <= x.nonce
    {
      LeftOutAbove(sorted, k, x);
    }
  }

  /** In an ascending sequence, a row outside the first `k` is at least as high as each of them. */
  lemma LeftOutAbove(sorted: seq<Row>, k: nat, x: Row)
    requires Ascending(sorted) && k <= |sorted|
    requires x in multiset(sorted) - multiset(sorted[..k])
    ensures forall i :: 0 <= i < k ==> sorted[i].nonce <= x.nonce
  {
    TakePrefix(sorted, k);
    assert x in multiset(sorted[k..]);
    var j :| 0 <= j < |sorted[k..]| && sorted[k..][j] == x;
    assert sorted[k + j] == x;
  }

  /** Row-to-message conversion in `fetch_history` as written: `content_iv` is encoded from the chat id column. */
  function HistoryMessage(row: Row): (o: OutcomeMessage)
    ensures o.nonce == row.nonce
  {
    OutcomeMessage(row.nonce, Encode(row.chatId), Encode(row.signature), Encode(row.content), Encode(row.chatId))
  }

  /** The conversion as intended: `content_iv` is encoded from its own column. */
  function HistoryMessageIntended(row: Row): (o: OutcomeMessage)
    ensures o.nonce == row.nonce
  {
    OutcomeMessage(row.nonce, Encode(row.chatId), Encode(row.signature), Encode(row.content), Encode(row.contentIv))
  }

  /** Each field of the as-written message decodes back to a column, `content_iv` to the chat id. */
  lemma HistoryMessageDecodes(row: Row)
    ensures var o := HistoryMessage(row);
      && Decode(o.chatId) == Success(row.chatId) && Decode(o.signature) == Success(row.signature)
      && Decode(o.content) == Success(row.content) && Decode(o.contentIv) == Success(row.chatId)
  {
    DecodeEncode(row.chatId);
    DecodeEncode(row.signature);
    DecodeEncode(row.content);
  }

  /** Each field of the intended message decodes back to its own column. */
  lemma HistoryMessageIntendedDecodes(row: Row)
    ensures var o := HistoryMessageIntended(row);
      && Decode(o.chatId) == Success(row.chatId) && Decode(o.signature) == Success(row.signature)
      && Decode(o.content) == Success(row.content) && Decode(o.contentIv) == Success(row.contentIv)
  {
    DecodeEncode(row.chatId);
    DecodeEncode(row.signature);
    DecodeEncode(row.content);
    DecodeEncode(row.contentIv);
  }

  /** As written, a row whose initialisation vector differs from its chat id comes back with the wrong one. */
  lemma HistoryLosesContentIv(row: Row)
    requires row.contentIv != row.chatId
    ensures Decode(HistoryMessage(row).contentIv) != Success(row.contentIv)
  {
    HistoryMessageDecodes(row);
  }

  /** `fetch_history` as written. */
  function FetchHistory(t: Table, chat: seq<byte>, from: nat, amount: nat): (r: seq<OutcomeMessage>)
    ensures |r| == |HistoryRows(t, chat, from, amount)|
    ensures forall i :: 0 <= i < |r| ==> r[i] == HistoryMessage(HistoryRows(t, chat, from, amount)[i])
    ensures |r| <= amount && (|r| < amount ==> |r| == |Matching(t, chat, from)|)
    ensures forall i :: 0 <= i < |r| ==> r[i].nonce >= from
    ensures forall i, j :: 0 <= i < j < |r| ==> r[i].nonce <= r[j].nonce
  {
    var rows := HistoryRows(t, chat, from, amount);
    var r := seq(|rows|, i requires 0 <= i < |rows| => HistoryMessage(rows[i]));
    r
  }

  /** `fetch_history` with the intended conversion. */
  function FetchHistoryIntended(t: Table, chat: seq<byte>, from: nat, amount: nat): (r: seq<OutcomeMessage>)
    ensures |r| == |HistoryRows(t, chat, from, amount)|
    ensures forall i :: 0 <= i < |r| ==> r[i] == HistoryMessageIntended(HistoryRows(t, chat, from, amount)[i])
    ensures |r| <= amount && (|r| < amount ==> |r| == |Matching(t, chat, from)|)
    ensures forall i :: 0 <= i < |r| ==> r[i].nonce >= from
    ensures forall i, j :: 0 <= i < j < |r| ==> r[i].nonce <= r[j].nonce
  {
    var rows := HistoryRows(t, chat, from, amount);
    var r := seq(|rows|, i requires 0 <= i < |rows| => HistoryMessageIntended(rows[i]));
    r
  }

  /** Selecting from a table with one more row selects that row last, if at all. */
  lemma MatchingAppend(t: Table, x: Row, chat: seq<byte>, from: nat)
    ensures Matching(t + [x], chat, from) == Matching(t, chat, from) + (if Selected(x, chat, from) then [x] else [])
  {
    assert (t + [x])[..|t|] == t;
  }

  /** No row of a chat lies above its last nonce. */
  lemma NothingAboveLast(t: Table, chat: seq<byte>, from: nat)
    requires from > GetLastNonceOrZero(t, chat)
    ensures Matching(t, chat, from) == []
  {
  }

  /** A one-row selection is returned as that row by any page of positive size. */
  lemma SingleRowPage(t: Table, chat: seq<byte>, from: nat, amount: nat, row: Row)
    requires Matching(t, chat, from) == [row] && amount > 0
    ensures HistoryRows(t, chat, from, amount) == [row]
  {
    assert SortByNonce([row]) == InsertByNonce(row, []);
  }

  /** The row the intended insert appends, and what it means for the chat's history. */
  lemma IntendedRow(t: Table, m: Message) returns (row: Row)
    requires InsertMessageIntended(t, m).Success?
    ensures InsertMessageIntended(t, m).value == t + [row]
    ensures row.chatId == Decode(m.chatId).value && row.nonce == m.nonce
    ensures m.nonce > GetLastNonceOrZero(t, row.chatId)
    ensures HistoryMessageIntended(row) == ToOutcome(m)
  {
    var u := InsertMessageIntended(t, m).value;
    row := u[|t|];
    assert u == t + [row];
    DecodeEncode(row.chatId);
  }

  /** The intended page of a table whose selection is one row is that row's message. */
  lemma SingleMessagePage(t: Table, chat: seq<byte>, from: nat, amount: nat, row: Row)
    requires Matching(t, chat, from) == [row] && amount > 0
    ensures FetchHistoryIntended(t, chat, from, amount) == [HistoryMessageIntended(row)]
  {
    SingleRowPage(t, chat, from, amount, row);
  }

  /**
   * What the intended insert stores, the intended fetch returns unchanged:
   * the page starting at the new nonce is exactly the message.
   */
  lemma InsertThenFetchIntended(t: Table, m: Message, amount: nat)
    requires InsertMessageIntended(t, m).Success? && amount > 0
    ensures FetchHistoryIntended(InsertMessageIntended(t, m).value, Decode(m.chatId).value, m.nonce, amount) == [ToOutcome(m)]
  {
    var row := IntendedRow(t, m);
    var chat := row.chatId;
    assert Selected(row, chat, m.nonce);
    NothingAboveLast(t, chat, m.nonce);
    MatchingAppend(t, row, chat, m.nonce);
    SingleMessagePage(t + [row], chat, m.nonce, amount, row);
  }

  /** Every message of an as-written page names the requested chat, in `queueId` and again in `contentIV`. */
  lemma FetchHistoryCarriesChat(t: Table, chat: seq<byte>, from: nat, amount: nat)
    ensures var r := FetchHistory(t, chat, from, amount);
      forall i :: 0 <= i < |r| ==> Decode(r[i].chatId) == Success(chat) && Decode(r[i].contentIv) == Success(chat)
  {
    var rows := HistoryRows(t, chat, from, amount);
    var r := FetchHistory(t, chat, from, amount);
    forall i | 0 <= i < |r|
      ensures Decode(r[i].chatId) == Success(chat) && Decode(r[i].contentIv) == Success(chat)
    {
      assert r[i] == HistoryMessage(rows[i]);
      HistoryMessageDecodes(rows[i]);
    }
  }

  /** Every message of a page lies between the page's start and the chat's last nonce. */
  lemma PageWithinChat(t: Table, chat: seq<byte>, from: nat, amount: nat)
    ensures var r := FetchHistory(t, chat, from, amount);
      forall i :: 0 <= i < |r| ==> from <= r[i].nonce <= GetLastNonceOrZero(t, chat)
  {
    var matching := Matching(t, chat, from);
    var rows := HistoryRows(t, chat, from, amount);
    var r := FetchHistory(t, chat, from, amount);
    forall i | 0 <= i < |r|
      ensures from <= r[i].nonce <= GetLastNonceOrZero(t, chat)
    {
      assert r[i] == HistoryMessage(rows[i]);
      assert rows[i] in multiset(matching);
      var k :| 0 <= k < |matching| && matching[k] == rows[i];
      var j :| 0 <= j < |t| && t[j] == matching[k];
    }
  }
}
