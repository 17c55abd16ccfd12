/**
 * The rule pass (`modify_emails`, run from `main`): the aggregator selects
 * the three id lists, and the dispatcher posts them. An exception raised by
 * the aggregator ends the pass before anything is posted; `main` catches it
 * and reports it.
 */
module Pipeline {
  import opened Wrappers
  import opened Conditions
  import Rules
  import Dispatch

  /** How a pass ends: stopped by an exception, or the requests posted and their reports. */
  datatype Outcome = Aborted(reason: Rules.Abort) | Dispatched(sent: seq<Dispatch.Request>, log: seq<Dispatch.Report>)

  /** The pass as a function of the rules, the clock, the store, the token and the remote mailbox. */
  function Run(rules: seq<Rules.Rule>, now: int, store: Rules.Store, token: string, respond: Dispatch.Responder): Outcome
    requires InDateRange(now)
  {
    match Rules.Aggregate(rules, now, store)
    case Err(e) => Aborted(e)
    case Ok(b) => Dispatched(Dispatch.Requests(b, token), Dispatch.Reports(b, token, respond))
  }

  /** modify_emails, with main's handler: an abort is caught and nothing is posted. */
  method ModifyEmails(rules: seq<Rules.Rule>, now: int, store: Rules.Store, token: string, respond: Dispatch.Responder)
    returns (outcome: Outcome)
    requires InDateRange(now)
    ensures outcome == Run(rules, now, store, token, respond)
  {
    var selected := Rules.BuildQueryBasedOnRules(rules, now, store);
    if selected.Err? {
      return Aborted(selected.error);
    }
    var b := selected.value;
    var sent, log := Dispatch.ModifyApiCall(b.asRead, b.unread, b.move, token, respond);
    return Dispatched(sent, log);
  }

  /**
   * A pass posts requests only when every rule ran; the requests then carry
   * exactly the ids the rules selected, in list order, and nothing is posted
   * when no rule selected anything.
   */
  lemma RunPostsSelection(rules: seq<Rules.Rule>, now: int, store: Rules.Store, token: string, respond: Dispatch.Responder)
    requires InDateRange(now)
    ensures Run(rules, now, store, token, respond).Aborted? <==> Rules.Aggregate(rules, now, store).Err?
    ensures Run(rules, now, store, token, respond).Dispatched? ==>
      var b := Rules.Aggregate(rules, now, store).value;
      && Dispatch.CarriedIds(Run(rules, now, store, token, respond).sent) == b.asRead + b.unread + b.move
      && (Run(rules, now, store, token, respond).sent == [] <==> Dispatch.NoRulesMatched in Run(rules, now, store, token, respond).log)
  {
    match Rules.Aggregate(rules, now, store)
    case Err(_) =>
    case Ok(b) =>
      Dispatch.RequestsCarryAllIds(b, token);
      Dispatch.ReportsFollowStatuses(b, token, respond);
  }

  /**
   * `modify_emails` given the rule of the repository's full-flow fixture: the
   * rule has no `predicate` key, so the pass stops with a KeyError before the
   * query runs and posts nothing, whatever the store holds and however the
   * actions are spelled.
   */
  lemma FullFlowExample(now: int, store: Rules.Store, token: string, respond: Dispatch.Responder)
    requires InDateRange(now)
    ensures var rule := Rules.Rule(Some([Condition(Some("From"), Some("contains"), Some("example.com"))]), None, Some([Rules.MarkAsRead]));
      Run([rule], now, store, token, respond) == Aborted(Rules.MissingKey("predicate"))
  {
    var rule := Rules.Rule(Some([Condition(Some("From"), Some("contains"), Some("example.com"))]), None, Some([Rules.MarkAsRead]));
    assert [rule][..0] == [];
    assert Rules.RunRules([rule][..0], now, store) == Ok(Rules.Start);
    assert Rules.RunRule(Rules.Start, rule, now, store) == Err(Rules.MissingKey("predicate"));
    assert Rules.RunRules([rule], now, store) == Err(Rules.MissingKey("predicate"));
  }

  /**
   * The same rule with `predicate: All`: the store is asked exactly one
   * query, and the message it returns is marked as read with one request.
   */
  lemma MarkAsReadScenario(now: int, store: Rules.Store, token: string, respond: Dispatch.Responder)
    requires InDateRange(now)
    requires store(Rules.Query(Rules.SelectSql("sender LIKE :sender_like"),
                               map["sender_like" := Pattern("%example.com%")])) == Some(["m1"])
    requires respond(Dispatch.Post(Dispatch.MarkRead, ["m1"], token)) == 200
    ensures var rule := Rules.Rule(Some([Condition(Some("From"), Some("contains"), Some("example.com"))]), Some("All"), Some([Rules.MarkAsRead]));
      Run([rule], now, store, token, respond)
        == Dispatched([Dispatch.Post(Dispatch.MarkRead, ["m1"], token)], [Dispatch.Done(Dispatch.MarkRead)])
  {
    var rule := Rules.Rule(Some([Condition(Some("From"), Some("contains"), Some("example.com"))]), Some("All"), Some([Rules.MarkAsRead]));
    ScenarioSelects(now, store);
    var b := Rules.Buckets(["m1"], [], []);
    Dispatch.ChangesDistinct();
    var sent := Dispatch.Requests(b, token);
    assert sent == [Dispatch.Post(Dispatch.MarkRead, ["m1"], token)];
    assert Dispatch.ActionOf(sent[0].change) == Dispatch.MarkRead;
    assert Dispatch.Reports(b, token, respond) == [Dispatch.Done(Dispatch.MarkRead)];
  }

  /** The scenario's rule selects the one message the store returns into the mark-as-read list. */
  lemma ScenarioSelects(now: int, store: Rules.Store)
    requires InDateRange(now)
    requires store(Rules.Query(Rules.SelectSql("sender LIKE :sender_like"),
                               map["sender_like" := Pattern("%example.com%")])) == Some(["m1"])
    ensures var rule := Rules.Rule(Some([Condition(Some("From"), Some("contains"), Some("example.com"))]), Some("All"), Some([Rules.MarkAsRead]));
      Rules.Aggregate([rule], now, store) == Ok(Rules.Buckets(["m1"], [], []))
  {
    var c := Condition(Some("From"), Some("contains"), Some("example.com"));
    var rule := Rules.Rule(Some([c]), Some("All"), Some([Rules.MarkAsRead]));
    var q := QueryParts(["sender LIKE :sender_like"], map["sender_like" := Pattern("%example.com%")]);
    assert Rules.TranslateAll(Rules.Start.query, [c], now) == q by {
      ContainsExample("example.com", now);
      assert "%" + "example.com" + "%" == "%example.com%";
      assert [c][..0] == [];
    }
    var query := Rules.RuleQuery(q, "All");
    assert Text.Join(" AND ", q.where) == "sender LIKE :sender_like";
    assert query == Rules.Query(Rules.SelectSql("sender LIKE :sender_like"), q.params);
    assert Rules.Execute(store, q.where, query) == Some(["m1"]) by {
      assert Rules.NamesColumn(q.where[0]);
    }
    assert Rules.Distribute(Rules.Start.buckets, [Rules.MarkAsRead], ["m1"]) == Rules.Buckets(["m1"], [], []) by {
      assert [Rules.MarkAsRead][..0] == [];
    }
    assert Rules.RunRule(Rules.Start, rule, now, store) == Ok(Rules.Pass(q, Rules.Buckets(["m1"], [], [])));
    assert [rule][..0] == [];
    assert Rules.RunRules([rule][..0], now, store) == Ok(Rules.Start);
    assert Rules.RunRules([rule], now, store) == Ok(Rules.Pass(q, Rules.Buckets(["m1"], [], [])));
  }
}
