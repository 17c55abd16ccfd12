/**
 * The batch dispatcher (`modify_api_call`): one batchModify request per
 * non-empty id list, each with its fixed label change, in the order
 * mark-read, mark-unread, move; every response status is reported, and a
 * failure status never stops the requests after it.
 */
module Dispatch {
  import Rules

  const BatchModifyUrl: string := "https://gmail.googleapis.com/gmail/v1/users/me/messages/batchModify"

  datatype LabelChange = AddLabelIds(labels: seq<string>) | RemoveLabelIds(labels: seq<string>)

  /** A POST to the batchModify endpoint: headers and JSON body. */
  datatype Request = Request(url: string, authorization: string, contentType: string,
                             ids: seq<string>, change: LabelChange)

  datatype Action = MarkRead | MarkUnread | Move

  /** One line of the dispatcher's output. */
  datatype Report = Done(action: Action) | Failed(action: Action, status: int) | NoRulesMatched

  /** The remote mailbox: the status code it answers a request with. */
  type Responder = Request -> int

  function Change(a: Action): LabelChange
  {
    match a
    case MarkRead => RemoveLabelIds(["UNREAD"])
    case MarkUnread => AddLabelIds(["UNREAD"])
    case Move => AddLabelIds(["INBOX"])
  }

  /** The request for one list; `token` is the bearer token obtained at sign-in. */
  function Post(a: Action, ids: seq<string>, token: string): Request
  {
    Request(BatchModifyUrl, "Bearer " + token, "application/json", ids, Change(a))
  }

  /** Only 200 and 204 count as success. */
  predicate IsSuccess(status: int)
  {
    status == 200 || status == 204
  }

  function Outcome(a: Action, status: int): Report
  {
    if IsSuccess(status) then Done(a) else Failed(a, status)
  }

  function ListOf(b: Rules.Buckets, a: Action): seq<string>
  {
    match a
    case MarkRead => b.asRead
    case MarkUnread => b.unread
    case Move => b.move
  }

  predicate AllEmpty(b: Rules.Buckets)
  {
    b.asRead == [] && b.unread == [] && b.move == []
  }

  /** The request for one list, if the list is non-empty. */
  function Batch(a: Action, ids: seq<string>, token: string): seq<Request>
  {
    if ids != [] then [Post(a, ids, token)] else []
  }

  /** Every request modify_api_call sends, in order: mark-read, mark-unread, move. */
  function Requests(b: Rules.Buckets, token: string): seq<Request>
  {
    Batch(MarkRead, b.asRead, token) + Batch(MarkUnread, b.unread, token) + Batch(Move, b.move, token)
  }

  /** One report per request, in the order the requests were sent. */
  function Outcomes(sent: seq<Request>, respond: Responder): seq<Report>
  {
    seq(|sent|, i requires 0 <= i < |sent| => Outcome(ActionOf(sent[i].change), respond(sent[i])))
  }

  /** What modify_api_call reports: one line per request, then the no-match line if nothing was sent. */
  function Reports(b: Rules.Buckets, token: string, respond: Responder): seq<Report>
  {
    Outcomes(Requests(b, token), respond) + (if AllEmpty(b) then [NoRulesMatched] else [])
  }

  lemma OutcomesAppend(sent: seq<Request>, r: Request, respond: Responder)
    ensures Outcomes(sent + [r], respond) == Outcomes(sent, respond) + [Outcome(ActionOf(r.change), respond(r))]
  {
    assert (sent + [r])[|sent|] == r;
  }

  /** The action a label change carries out (the three changes differ). */
  function ActionOf(change: LabelChange): Action
  {
    if change == RemoveLabelIds(["UNREAD"]) then MarkRead
    else if change == AddLabelIds(["UNREAD"]) then MarkUnread
    else Move
  }

  lemma ChangesDistinct()
    ensures forall a :: ActionOf(Change(a)) == a
  {
    assert AddLabelIds(["UNREAD"]) != AddLabelIds(["INBOX"]) by {
      assert "UNREAD"[0] != "INBOX"[0];
    }
  }

  /** Position of an action in dispatch order. */
  function Rank(a: Action): nat
  {
    match a
    case MarkRead => 0
    case MarkUnread => 1
    case Move => 2
  }

  /** The ids of a sequence of requests, request after request. */
  function CarriedIds(sent: seq<Request>): seq<string>
  {
    if sent == [] then [] else CarriedIds(sent[..|sent| - 1]) + sent[|sent| - 1].ids
  }

  lemma {:induction false} CarriedIdsAppend(xs: seq<Request>, ys: seq<Request>)
    ensures CarriedIds(xs + ys) == CarriedIds(xs) + CarriedIds(ys)
  {
    if ys != [] {
      assert (xs + ys)[..|xs + ys| - 1] == xs + ys[..|ys| - 1];
      CarriedIdsAppend(xs, ys[..|ys| - 1]);
    } else {
      assert xs + ys == xs;
    }
  }

  /**
   * A request goes out for an action exactly when its list is non-empty;
   * every request carries its action's whole list, label change and bearer
   * header; and the requests follow dispatch order, so no action is posted twice.
   */
  lemma RequestPerNonEmptyList(b: Rules.Buckets, token: string)
    ensures forall a :: ListOf(b, a) != [] <==> Post(a, ListOf(b, a), token) in Requests(b, token)
    ensures forall r :: r in Requests(b, token) ==>
      r.ids != [] && r == Post(ActionOf(r.change), ListOf(b, ActionOf(r.change)), token)
    ensures forall i, j :: 0 <= i < j < |Requests(b, token)| ==>
      Rank(ActionOf(Requests(b, token)[i].change)) < Rank(ActionOf(Requests(b, token)[j].change))
    ensures Requests(b, token) == [] <==> AllEmpty(b)
  {
    ChangesDistinct();
    var r1, r2, r3 := Batch(MarkRead, b.asRead, token), Batch(MarkUnread, b.unread, token), Batch(Move, b.move, token);
    var sent := Requests(b, token);
    forall i | 0 <= i < |sent|
      ensures var a := ActionOf(sent[i].change);
        && sent[i].ids != [] && sent[i] == Post(a, ListOf(b, a), token)
        && Rank(a) == (if i < |r1| then 0 else if i < |r1| + |r2| then 1 else 2)
    {
      if i < |r1| {
        assert sent[i] == r1[0];
      } else if i < |r1| + |r2| {
        assert sent[i] == r2[0];
      } else {
        assert sent[i] == r3[0];
      }
    }
    forall a
      ensures ListOf(b, a) != [] <==> Post(a, ListOf(b, a), token) in sent
    {
      match a
      case MarkRead => assert b.asRead != [] ==> sent[0] == Post(a, b.asRead, token);
      case MarkUnread => assert b.unread != [] ==> sent[|r1|] == Post(a, b.unread, token);
      case Move => assert b.move != [] ==> sent[|r1| + |r2|] == Post(a, b.move, token);
    }
  }

  /** Taken together, the requests carry every selected id once, in list order. */
  lemma RequestsCarryAllIds(b: Rules.Buckets, token: string)
    ensures CarriedIds(Requests(b, token)) == b.asRead + b.unread + b.move
  {
    var r1, r2, r3 := Batch(MarkRead, b.asRead, token), Batch(MarkUnread, b.unread, token), Batch(Move, b.move, token);
    CarriedIdsAppend(r1 + r2, r3);
    CarriedIdsAppend(r1, r2);
    assert CarriedIds(r1) == b.asRead;
    assert CarriedIds(r2) == b.unread;
    assert CarriedIds(r3) == b.move;
  }

  /**
   * Each request has its own report, a success exactly when the status is
   * 200 or 204, a failure carrying the status otherwise; the no-match line
   * appears exactly when no request was sent.
   */
  lemma ReportsFollowStatuses(b: Rules.Buckets, token: string, respond: Responder)
    ensures |Reports(b, token, respond)| == |Requests(b, token)| + (if AllEmpty(b) then 1 else 0)
    ensures forall i :: 0 <= i < |Requests(b, token)| ==>
      var r := Requests(b, token)[i];
      && (Reports(b, token, respond)[i] == Done(ActionOf(r.change)) <==> IsSuccess(respond(r)))
      && (Reports(b, token, respond)[i] == Failed(ActionOf(r.change), respond(r)) <==> !IsSuccess(respond(r)))
    ensures NoRulesMatched in Reports(b, token, respond) <==> Requests(b, token) == []
  {
    RequestPerNonEmptyList(b, token);
    var sent := Requests(b, token);
    var log := Reports(b, token, respond);
    assert forall i :: 0 <= i < |sent| ==> log[i] == Outcome(ActionOf(sent[i].change), respond(sent[i]));
    assert log[|sent|..] == if AllEmpty(b) then [NoRulesMatched] else [];
  }

  /** The three lists of the dispatcher test each get their request, and a 400 answer fails all three. */
  lemma DispatchExample(token: string)
    ensures var b := Rules.Buckets(["id1", "id2"], ["id3", "id4"], ["id5", "id6"]);
      && Requests(b, token) == [Post(MarkRead, ["id1", "id2"], token), Post(MarkUnread, ["id3", "id4"], token), Post(Move, ["id5", "id6"], token)]
      && Reports(b, token, _ => 400) == [Failed(MarkRead, 400), Failed(MarkUnread, 400), Failed(Move, 400)]
      && Reports(b, token, _ => 200) == [Done(MarkRead), Done(MarkUnread), Done(Move)]
  {
    ChangesDistinct();
    var b := Rules.Buckets(["id1", "id2"], ["id3", "id4"], ["id5", "id6"]);
    var sent := Requests(b, token);
    assert sent == [Post(MarkRead, b.asRead, token), Post(MarkUnread, b.unread, token), Post(Move, b.move, token)];
    assert ActionOf(sent[0].change) == MarkRead && ActionOf(sent[1].change) == MarkUnread && ActionOf(sent[2].change) == Move;
    assert !AllEmpty(b);
    var failing: Responder := _ => 400;
    var log := Reports(b, token, failing);
    assert failing(sent[0]) == 400 && failing(sent[1]) == 400 && failing(sent[2]) == 400;
    assert |log| == 3;
    assert log[0] == Failed(MarkRead, 400) && log[1] == Failed(MarkUnread, 400) && log[2] == Failed(Move, 400);
    var accepting: Responder := _ => 200;
    log := Reports(b, token, accepting);
    assert accepting(sent[0]) == 200 && accepting(sent[1]) == 200 && accepting(sent[2]) == 200;
    assert |log| == 3;
    assert log[0] == Done(MarkRead) && log[1] == Done(MarkUnread) && log[2] == Done(Move);
  }

  /** With nothing selected no request is sent and only the no-match line is reported. */
  lemma NothingSelected(token: string, respond: Responder)
    ensures Requests(Rules.Buckets([], [], []), token) == []
    ensures Reports(Rules.Buckets([], [], []), token, respond) == [NoRulesMatched]
  {
  }

  /**
   * modify_api_call: posts one request per non-empty list and reports each
   * response; `respond` stands for the remote mailbox.
   */
  method ModifyApiCall(asRead: seq<string>, unread: seq<string>, move: seq<string>, token: string, respond: Responder)
    returns (sent: seq<Request>, log: seq<Report>)
    ensures sent == Requests(Rules.Buckets(asRead, unread, move), token)
    ensures log == Reports(Rules.Buckets(asRead, unread, move), token, respond)
  {
    ChangesDistinct();
    sent, log := [], [];
    assert log == Outcomes(sent, respond);
    var headers := "Bearer " + token;
    if asRead != [] {
      var data := Request(BatchModifyUrl, headers, "application/json", asRead, RemoveLabelIds(["UNREAD"]));
      var status := respond(data);
      OutcomesAppend(sent, data, respond);
      sent := sent + [data];
      if status == 200 || status == 204 {
        log := log + [Done(MarkRead)];
      } else {
        log := log + [Failed(MarkRead, status)];
      }
    }
    assert sent == Batch(MarkRead, asRead, token);
    assert log == Outcomes(sent, respond);
    if unread != [] {
      var data := Request(BatchModifyUrl, headers, "application/json", unread, AddLabelIds(["UNREAD"]));
      var status := respond(data);
      OutcomesAppend(sent, data, respond);
      sent := sent + [data];
      if status == 200 || status == 204 {
        log := log + [Done(MarkUnread)];
      } else {
        log := log + [Failed(MarkUnread, status)];
      }
    }
    assert sent == Batch(MarkRead, asRead, token) + Batch(MarkUnread, unread, token);
    assert log == Outcomes(sent, respond);
    if move != [] {
      var data := Request(BatchModifyUrl, headers, "application/json", move, AddLabelIds(["INBOX"]));
      var status := respond(data);
      OutcomesAppend(sent, data, respond);
      sent := sent + [data];
      if status == 200 || status == 204 {
        log := log + [Done(Move)];
      } else {
        log := log + [Failed(Move, status)];
      }
    }
    assert sent == Requests(Rules.Buckets(asRead, unread, move), token);
    assert log == Outcomes(sent, respond);
    if asRead == [] && unread == [] && move == [] {
      log := log + [NoRulesMatched];
    }
  }
}
