/**
 * The rule aggregator (`build_query_based_on_rules`): every condition of every
 * rule goes through the condition translator, the fragments are joined with
 * AND or OR, the query runs against the local store, and the matching ids are
 * appended to the action lists the rule names.
 *
 * The fragment list and the parameter dictionary are created once, before the
 * first rule, so a rule's query also carries every fragment of the rules
 * before it.
 */
module Rules {
  import opened Wrappers
  import Text
  import opened Conditions

  /** A rule of the rule file; each key may be missing. `combinator` is the rule's `predicate` key. */
  datatype Rule = Rule(conditions: Option<seq<Condition>>, combinator: Option<string>, actions: Option<seq<string>>)

  /** The three id lists: `as_read_ids`, `unread_ids`, `move_ids`. */
  datatype Buckets = Buckets(asRead: seq<string>, unread: seq<string>, move: seq<string>)

  /** What one rule hands to the next: the shared accumulators and the three lists. */
  datatype Pass = Pass(query: QueryParts, buckets: Buckets)

  /** A statement and its bound parameters, as handed to the database session. */
  datatype Query = Query(sql: string, params: map<string, ParamValue>)

  /** The local store: the `message_id` column of the rows a query selects, in row order, or None when execution fails. */
  type Store = Query -> Option<seq<string>>

  /** Why a pass stops before dispatch: a rule without a required key, or a query the store rejects. */
  datatype Abort = MissingKey(key: string) | QueryFailed(sql: string)

  const MarkAsRead: string := "Mark as Read"
  const MoveMessage: string := "Move Message"
  const MarkAsUnread: string := "Mark as Unread"

  /** `" AND "` for the combinator `All` (case-sensitive), `" OR "` for anything else. */
  function Separator(combinator: string): string
  {
    if combinator == "All" then " AND " else " OR "
  }

  function SelectSql(whereClause: string): string
  {
    "SELECT message_id FROM email WHERE " + whereClause
  }

  /** A fragment that starts with its column name (the empty column name leaves the operator first). */
  predicate NamesColumn(fragment: string)
  {
    fragment != [] && fragment[0] != ' '
  }

  /**
   * Running a query: SQLite rejects `WHERE` followed by nothing, and a
   * comparison with no column before its operator; any other statement is
   * answered by the store.
   */
  function Execute(store: Store, where: seq<string>, query: Query): Option<seq<string>>
  {
    if where == [] || exists i :: 0 <= i < |where| && !NamesColumn(where[i]) then None
    else store(query)
  }

  /** The inner loop over a rule's conditions: a condition that raises contributes nothing. */
  function TranslateAll(q: QueryParts, conditions: seq<Condition>, now: int): QueryParts
    requires InDateRange(now)
  {
    if conditions == [] then q
    else
      var q' := TranslateAll(q, conditions[..|conditions| - 1], now);
      match Translate(q', conditions[|conditions| - 1], now)
      case Ok(q'') => q''
      case Err(_) => q'
  }

  /** The loop over a rule's actions: each known action appends the rule's ids to its list. */
  function Distribute(b: Buckets, actions: seq<string>, ids: seq<string>): Buckets
  {
    if actions == [] then b
    else
      var b' := Distribute(b, actions[..|actions| - 1], ids);
      var action := actions[|actions| - 1];
      if action == MarkAsRead then b'.(asRead := b'.asRead + ids)
      else if action == MoveMessage then b'.(move := b'.move + ids)
      else if action == MarkAsUnread then b'.(unread := b'.unread + ids)
      else b'
  }

  /** The query a rule runs once its conditions have been added to the accumulators. */
  function RuleQuery(q: QueryParts, combinator: string): Query
  {
    Query(SelectSql(Text.Join(Separator(combinator), q.where)), q.params)
  }

  /** One iteration of the rule loop. */
  function RunRule(p: Pass, rule: Rule, now: int, store: Store): Result<Pass, Abort>
    requires InDateRange(now)
  {
    if rule.conditions.None? then Err(MissingKey("conditions"))
    else
      var q := TranslateAll(p.query, rule.conditions.value, now);
      if rule.combinator.None? then Err(MissingKey("predicate"))
      else
        var query := RuleQuery(q, rule.combinator.value);
        match Execute(store, q.where, query)
        case None => Err(QueryFailed(query.sql))
        case Some(ids) =>
          if rule.actions.None? then Err(MissingKey("actions"))
          else Ok(Pass(q, Distribute(p.buckets, rule.actions.value, ids)))
  }

  const Start: Pass := Pass(QueryParts([], map[]), Buckets([], [], []))

  /** The rule loop over a prefix of the rules; the first abort ends it. */
  function RunRules(rules: seq<Rule>, now: int, store: Store): Result<Pass, Abort>
    requires InDateRange(now)
  {
    if rules == [] then Ok(Start)
    else
      match RunRules(rules[..|rules| - 1], now, store)
      case Err(e) => Err(e)
      case Ok(p) => RunRule(p, rules[|rules| - 1], now, store)
  }

  /** What build_query_based_on_rules returns, or why it raised. */
  function Aggregate(rules: seq<Rule>, now: int, store: Store): Result<Buckets, Abort>
    requires InDateRange(now)
  {
    match RunRules(rules, now, store)
    case Ok(p) => Ok(p.buckets)
    case Err(e) => Err(e)
  }

  /** Once a rule aborts the pass, the later rules do not change the outcome. */
  lemma {:induction false} AbortIsFinal(rules: seq<Rule>, n: nat, now: int, store: Store)
    requires InDateRange(now) && n <= |rules|
    requires RunRules(rules[..n], now, store).Err?
    ensures RunRules(rules, now, store) == RunRules(rules[..n], now, store)
  {
    if n == |rules| {
      assert rules[..n] == rules;
    } else {
      var init := rules[..|rules| - 1];
      assert init[..n] == rules[..n];
      AbortIsFinal(init, n, now, store);
    }
  }

  /** `n` copies of `ids`, one after the other. */
  function Repeat(ids: seq<string>, n: nat): seq<string>
  {
    if n == 0 then [] else Repeat(ids, n - 1) + ids
  }

  /** How often `action` occurs in `actions`. */
  function Count(actions: seq<string>, action: string): nat
  {
    if actions == [] then 0
    else Count(actions[..|actions| - 1], action) + (if actions[|actions| - 1] == action then 1 else 0)
  }

  lemma ActionNamesDistinct()
    ensures MarkAsRead != MoveMessage && MarkAsRead != MarkAsUnread && MoveMessage != MarkAsUnread
  {
    assert MarkAsRead[1] != MoveMessage[1];
    assert |MarkAsRead| != |MarkAsUnread| && |MoveMessage| != |MarkAsUnread|;
  }

  /**
   * The action loop, in closed form: each list is extended by the rule's ids,
   * in order and duplicates kept, once per occurrence of its action name;
   * every other action name is ignored.
   */
  lemma {:induction false} DistributeCounts(b: Buckets, actions: seq<string>, ids: seq<string>)
    ensures Distribute(b, actions, ids) == Buckets(b.asRead + Repeat(ids, Count(actions, MarkAsRead)),
                                                   b.unread + Repeat(ids, Count(actions, MarkAsUnread)),
                                                   b.move + Repeat(ids, Count(actions, MoveMessage)))
  {
    if actions != [] {
      var init := actions[..|actions| - 1];
      DistributeCounts(b, init, ids);
      ActionNamesDistinct();
      var a := actions[|actions| - 1];
      if a == MarkAsRead {
        assert b.asRead + Repeat(ids, Count(init, MarkAsRead)) + ids
            == b.asRead + Repeat(ids, Count(init, MarkAsRead) + 1);
      } else if a == MoveMessage {
        assert b.move + Repeat(ids, Count(init, MoveMessage)) + ids
            == b.move + Repeat(ids, Count(init, MoveMessage) + 1);
      } else if a == MarkAsUnread {
        assert b.unread + Repeat(ids, Count(init, MarkAsUnread)) + ids
            == b.unread + Repeat(ids, Count(init, MarkAsUnread) + 1);
      }
    }
  }

  /** An action name the engine does not know leaves all three lists as they were. */
  lemma UnknownActionIgnored(b: Buckets, actions: seq<string>, action: string, ids: seq<string>)
    requires action != MarkAsRead && action != MoveMessage && action != MarkAsUnread
    ensures Distribute(b, actions + [action], ids) == Distribute(b, actions, ids)
  {
    assert (actions + [action])[..|actions|] == actions;
  }

  /** Distributing ids only appends: each list before is a prefix of the list after. */
  lemma DistributeGrows(b: Buckets, actions: seq<string>, ids: seq<string>)
    ensures var b' := Distribute(b, actions, ids);
      b.asRead <= b'.asRead && b.unread <= b'.unread && b.move <= b'.move
  {
    DistributeCounts(b, actions, ids);
  }

  /**
   * The condition loop only appends fragments and only adds or overwrites
   * parameters, and it never leaves a fragment without a bound value.
   */
  lemma {:induction false} TranslateAllExtends(q: QueryParts, conditions: seq<Condition>, now: int)
    requires InDateRange(now)
    ensures q.where <= TranslateAll(q, conditions, now).where
    ensures q.params.Keys <= TranslateAll(q, conditions, now).params.Keys
    ensures Bound(q) ==> Bound(TranslateAll(q, conditions, now))
  {
    if conditions != [] {
      var init := conditions[..|conditions| - 1];
      TranslateAllExtends(q, init, now);
      var q' := TranslateAll(q, init, now);
      if Bound(q) {
        TranslateKeepsBound(q', conditions[|conditions| - 1], now);
      }
    }
  }

  /** A rule that runs only appends: to the fragments, to the parameters and to each list. */
  lemma RunRuleGrows(p: Pass, rule: Rule, now: int, store: Store)
    requires InDateRange(now) && RunRule(p, rule, now, store).Ok?
    ensures var p' := RunRule(p, rule, now, store).value;
      && p.query.where <= p'.query.where
      && p.query.params.Keys <= p'.query.params.Keys
      && p.buckets.asRead <= p'.buckets.asRead
      && p.buckets.unread <= p'.buckets.unread
      && p.buckets.move <= p'.buckets.move
      && (Bound(p.query) ==> Bound(p'.query))
  {
    TranslateAllExtends(p.query, rule.conditions.value, now);
    var q := TranslateAll(p.query, rule.conditions.value, now);
    var ids := Execute(store, q.where, RuleQuery(q, rule.combinator.value)).value;
    DistributeGrows(p.buckets, rule.actions.value, ids);
  }

  /**
   * Across the rule loop everything only grows: the state after the first `j`
   * rules is carried, as a prefix, into the state after all of them. In
   * particular every later rule's query starts with every earlier rule's
   * fragments, and no id is ever removed from a list.
   */
  lemma {:induction false} RunRulesGrow(rules: seq<Rule>, j: nat, now: int, store: Store)
    requires InDateRange(now) && j <= |rules| && RunRules(rules, now, store).Ok?
    ensures RunRules(rules[..j], now, store).Ok?
    ensures var a, b := RunRules(rules[..j], now, store).value, RunRules(rules, now, store).value;
      && a.query.where <= b.query.where
      && a.query.params.Keys <= b.query.params.Keys
      && a.buckets.asRead <= b.buckets.asRead
      && a.buckets.unread <= b.buckets.unread
      && a.buckets.move <= b.buckets.move
  {
    if j == |rules| {
      assert rules[..j] == rules;
    } else {
      var init := rules[..|rules| - 1];
      assert init[..j] == rules[..j];
      RunRulesGrow(init, j, now, store);
      RunRuleGrows(RunRules(init, now, store).value, rules[|rules| - 1], now, store);
    }
  }

  /** Every query the pass runs names only placeholders that have bound values. */
  lemma {:induction false} RunRulesBound(rules: seq<Rule>, now: int, store: Store)
    requires InDateRange(now) && RunRules(rules, now, store).Ok?
    ensures Bound(RunRules(rules, now, store).value.query)
  {
    if rules != [] {
      var init := rules[..|rules| - 1];
      RunRulesBound(init, now, store);
      RunRuleGrows(RunRules(init, now, store).value, rules[|rules| - 1], now, store);
    }
  }

  /** Fragments are never empty, so the WHERE clause is empty exactly when there are no fragments. */
  lemma ClauseEmptyIff(q: QueryParts, combinator: string)
    requires Bound(q)
    ensures Text.Join(Separator(combinator), q.where) == [] <==> q.where == []
  {
    forall i | 0 <= i < |q.where| ensures q.where[i] != [] {
      var attr, k :| q.where[i] == Fragment(attr, k) && ParamName(attr, k) in q.params;
      assert |Fragment(attr, k)| > 0;
    }
    Text.JoinEmptyIff(Separator(combinator), q.where);
  }

  /**
   * A rule reached with no fragments at all (none from earlier rules and none
   * of its own) runs `SELECT ... WHERE ` with nothing after WHERE, and the
   * pass aborts instead of matching nothing.
   */
  lemma NoFragmentsAborts(p: Pass, rule: Rule, now: int, store: Store)
    requires InDateRange(now)
    ensures rule.conditions.Some? && rule.combinator.Some? && TranslateAll(p.query, rule.conditions.value, now).where == [] ==>
      RunRule(p, rule, now, store) == Err(QueryFailed("SELECT message_id FROM email WHERE "))
  {
    if rule.conditions.Some? && rule.combinator.Some? && TranslateAll(p.query, rule.conditions.value, now).where == [] {
      var q := TranslateAll(p.query, rule.conditions.value, now);
      assert Text.Join(Separator(rule.combinator.value), q.where) == [];
      assert SelectSql([]) == "SELECT message_id FROM email WHERE ";
    }
  }

  /** In particular a first rule with an empty condition list aborts the whole pass. */
  lemma EmptyFirstRuleAborts(rules: seq<Rule>, now: int, store: Store)
    requires InDateRange(now) && |rules| > 0
    requires rules[0].conditions == Some([]) && rules[0].combinator.Some?
    ensures Aggregate(rules, now, store) == Err(QueryFailed("SELECT message_id FROM email WHERE "))
  {
    assert rules[..1] == [rules[0]];
    assert RunRules(rules[..1], now, store) == RunRule(Start, rules[0], now, store);
    NoFragmentsAborts(Start, rules[0], now, store);
    AbortIsFinal(rules, 1, now, store);
  }

  /** The combinator is compared case-sensitively with `All`; every other value means OR. */
  lemma SeparatorCases()
    ensures Separator("All") == " AND "
    ensures Separator("Any") == " OR "
    ensures Separator("all") == " OR "
  {
    assert "Any"[1] != "All"[1];
    assert "all"[0] != "All"[0];
  }

  /** Whether a condition raises, and which fragment it adds, does not depend on the accumulators it meets. */
  lemma TranslateWhereIndependent(q: QueryParts, c: Condition, now: int)
    requires InDateRange(now)
    ensures var e := QueryParts([], map[]);
      && (Translate(q, c, now).Ok? <==> Translate(e, c, now).Ok?)
      && (Translate(q, c, now).Ok? ==> Translate(q, c, now).value.where == q.where + Translate(e, c, now).value.where)
  {
    var e := QueryParts([], map[]);
    if !Present(c) {
      assert q.where + e.where == q.where;
    } else {
      var attr := Fields.Resolve(c.field.value);
      var v := c.value.value;
      match ClassifyPredicate(Text.Lower(c.pred.value))
      case Contains =>
        assert Translate(q, c, now) == Ok(Bind(q, attr, Like, Pattern("%" + v + "%")));
        assert Translate(e, c, now) == Ok(Bind(e, attr, Like, Pattern("%" + v + "%")));
      case DoesNotContain =>
        assert Translate(q, c, now) == Ok(Bind(q, attr, NotLike, Pattern("%" + v + "%")));
        assert Translate(e, c, now) == Ok(Bind(e, attr, NotLike, Pattern("%" + v + "%")));
      case DoesNotEqual =>
      case Equals =>
      case LessThan =>
        if attr == Fields.DateAttr {
          DateConditionShift(q, true, v, now);
        } else {
          assert q.where + e.where == q.where;
        }
      case Other =>
        if attr == Fields.DateAttr {
          DateConditionShift(q, false, v, now);
        } else {
          assert q.where + e.where == q.where;
        }
    }
  }

  lemma DateConditionShift(q: QueryParts, lessThan: bool, value: string, now: int)
    ensures var e := QueryParts([], map[]);
      && (DateCondition(q, lessThan, value, now).Ok? <==> DateCondition(e, lessThan, value, now).Ok?)
      && (DateCondition(q, lessThan, value, now).Ok? ==>
            DateCondition(q, lessThan, value, now).value.where == q.where + DateCondition(e, lessThan, value, now).value.where)
  {
    var e := QueryParts([], map[]);
    DateConditionBinds(q, lessThan, value, now);
    DateConditionBinds(e, lessThan, value, now);
    assert DateCondition(q, lessThan, value, now).Ok? <==> DateCondition(e, lessThan, value, now).Ok?;
  }

  /**
   * The fragments a rule's query is built from: every fragment already in the
   * shared list (those of all earlier rules), followed by the rule's own.
   */
  lemma {:induction false} OwnFragmentsAppended(q: QueryParts, conditions: seq<Condition>, now: int)
    requires InDateRange(now)
    ensures TranslateAll(q, conditions, now).where
         == q.where + TranslateAll(QueryParts([], map[]), conditions, now).where
  {
    if conditions != [] {
      var e := QueryParts([], map[]);
      var init, c := conditions[..|conditions| - 1], conditions[|conditions| - 1];
      OwnFragmentsAppended(q, init, now);
      var a, b := TranslateAll(q, init, now), TranslateAll(e, init, now);
      TranslateWhereIndependent(a, c, now);
      TranslateWhereIndependent(b, c, now);
      if Translate(a, c, now).Ok? {
        assert Translate(a, c, now).value.where == q.where + b.where + Translate(e, c, now).value.where;
      }
    }
  }

  /**
   * A rule's WHERE clause joins, with the rule's own combinator, every
   * fragment of the rules before it and then its own.
   */
  lemma RuleClauseCarriesEarlierRules(rules: seq<Rule>, k: nat, now: int, store: Store)
    requires InDateRange(now) && k < |rules| && RunRules(rules[..k], now, store).Ok?
    requires rules[k].conditions.Some? && rules[k].combinator.Some?
    ensures var p := RunRules(rules[..k], now, store).value;
      var own := TranslateAll(QueryParts([], map[]), rules[k].conditions.value, now).where;
      RuleQuery(TranslateAll(p.query, rules[k].conditions.value, now), rules[k].combinator.value).sql
        == SelectSql(Text.Join(Separator(rules[k].combinator.value), p.query.where + own))
  {
    var p := RunRules(rules[..k], now, store).value;
    OwnFragmentsAppended(p.query, rules[k].conditions.value, now);
  }

  /** The loop over a query's rows: each row's message id, in row order. */
  method CollectIds(rows: seq<string>) returns (messageIds: seq<string>)
    ensures messageIds == rows
  {
    messageIds := [];
    for k := 0 to |rows|
      invariant messageIds == rows[..k]
    {
      messageIds := messageIds + [rows[k]];
    }
    assert rows[..|rows|] == rows;
  }

  /** The loop over a rule's actions, extending the three lists that outlive the rule. */
  method ExtendLists(asRead: seq<string>, unread: seq<string>, move: seq<string>, actions: seq<string>, ids: seq<string>)
    returns (asRead': seq<string>, unread': seq<string>, move': seq<string>)
    ensures Buckets(asRead', unread', move') == Distribute(Buckets(asRead, unread, move), actions, ids)
  {
    asRead', unread', move' := asRead, unread, move;
    for k := 0 to |actions|
      invariant Buckets(asRead', unread', move') == Distribute(Buckets(asRead, unread, move), actions[..k], ids)
    {
      assert actions[..k + 1][..k] == actions[..k];
      var action := actions[k];
      if action == MarkAsRead {
        asRead' := asRead' + ids;
      } else if action == MoveMessage {
        move' := move' + ids;
      } else if action == MarkAsUnread {
        unread' := unread' + ids;
      }
    }
    assert actions[..|actions|] == actions;
  }

  /**
   * build_query_based_on_rules: the accumulators are created once, before the
   * rule loop; `message_ids` is reset for each rule.
   */
  method BuildQueryBasedOnRules(rules: seq<Rule>, now: int, store: Store) returns (r: Result<Buckets, Abort>)
    requires InDateRange(now)
    ensures r == Aggregate(rules, now, store)
  {
    var st := new QueryState();
    var asRead: seq<string>, unread: seq<string>, move: seq<string> := [], [], [];
    for i := 0 to |rules|
      invariant RunRules(rules[..i], now, store) == Ok(Pass(st.Parts(), Buckets(asRead, unread, move)))
    {
      var rule := rules[i];
      ghost var p0 := Pass(st.Parts(), Buckets(asRead, unread, move));
      assert rules[..i + 1][..i] == rules[..i];
      assert RunRules(rules[..i + 1], now, store) == RunRule(p0, rule, now, store);
      if rule.conditions.None? {
        AbortIsFinal(rules, i + 1, now, store);
        return Err(MissingKey("conditions"));
      }
      var conditions := rule.conditions.value;
      ghost var q0 := st.Parts();
      for j := 0 to |conditions|
        invariant st.Parts() == TranslateAll(q0, conditions[..j], now)
      {
        assert conditions[..j + 1][..j] == conditions[..j];
        var raised := BuildConditions(st, conditions[j], now);
        // A condition that raised is reported and skipped.
      }
      assert conditions[..|conditions|] == conditions;
      if rule.combinator.None? {
        AbortIsFinal(rules, i + 1, now, store);
        return Err(MissingKey("predicate"));
      }
      var whereClause;
      if rule.combinator.value == "All" {
        whereClause := Text.Join(" AND ", st.whereConditions);
      } else {
        whereClause := Text.Join(" OR ", st.whereConditions);
      }
      var sql := SelectSql(whereClause);
      assert Query(sql, st.params) == RuleQuery(st.Parts(), rule.combinator.value);
      var result := Execute(store, st.whereConditions, Query(sql, st.params));
      if result.None? {
        AbortIsFinal(rules, i + 1, now, store);
        return Err(QueryFailed(sql));
      }
      var messageIds := CollectIds(result.value);
      if rule.actions.None? {
        AbortIsFinal(rules, i + 1, now, store);
        return Err(MissingKey("actions"));
      }
      asRead, unread, move := ExtendLists(asRead, unread, move, rule.actions.value, messageIds);
      assert RunRule(p0, rule, now, store) == Ok(Pass(st.Parts(), Buckets(asRead, unread, move)));
    }
    assert rules[..|rules|] == rules;
    return Ok(Buckets(asRead, unread, move));
  }
}
