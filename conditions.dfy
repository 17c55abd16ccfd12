/**
 * The condition translator (`build_conditions`): one rule condition becomes one
 * SQL WHERE fragment with a named placeholder, plus the value bound to that
 * placeholder. Fragments are appended to a list and values stored in a
 * dictionary that the caller keeps between calls.
 */
module Conditions {
  import opened Wrappers
  import Text
  import Fields

  /** A condition of a rule; each key of the rule file's dictionary may be missing. */
  datatype Condition = Condition(field: Option<string>, pred: Option<string>, value: Option<string>)

  /** The comparisons build_conditions can emit. */
  datatype Kind = Like | NotLike | Less | Greater

  /** The predicate names build_conditions tells apart, after lower-casing; all others are `Other`. */
  datatype PredicateName = Contains | DoesNotContain | DoesNotEqual | Equals | LessThan | Other

  function ClassifyPredicate(p: string): PredicateName
  {
    if p == "contains" then Contains
    else if p == "does not contain" then DoesNotContain
    else if p == "does not equal" then DoesNotEqual
    else if p == "equals" then Equals
    else if p == "less than" then LessThan
    else Other
  }

  /** The rule file's predicate spellings, in any letter case, and one the translator does not know. */
  lemma ClassifyNames()
    ensures ClassifyPredicate(Text.Lower("contains")) == Contains
    ensures ClassifyPredicate(Text.Lower("Contains")) == Contains
    ensures ClassifyPredicate(Text.Lower("does not contain")) == DoesNotContain
    ensures ClassifyPredicate(Text.Lower("Equals")) == Equals
    ensures ClassifyPredicate(Text.Lower("does not equal")) == DoesNotEqual
    ensures ClassifyPredicate(Text.Lower("Less than")) == LessThan
    ensures ClassifyPredicate(Text.Lower("greater than")) == Other
  {
  }

  /**
   * Predicates are matched up to letter case and nothing else: each of the
   * five names is recognised exactly when the predicate spells it in some
   * mix of upper- and lower-case letters.
   */
  lemma ClassifyCaseVariants(p: string)
    ensures ClassifyPredicate(Text.Lower(p)) == Contains <==> Text.CaseVariant(p, "contains")
    ensures ClassifyPredicate(Text.Lower(p)) == DoesNotContain <==> Text.CaseVariant(p, "does not contain")
    ensures ClassifyPredicate(Text.Lower(p)) == DoesNotEqual <==> Text.CaseVariant(p, "does not equal")
    ensures ClassifyPredicate(Text.Lower(p)) == Equals <==> Text.CaseVariant(p, "equals")
    ensures ClassifyPredicate(Text.Lower(p)) == LessThan <==> Text.CaseVariant(p, "less than")
  {
    Text.LowerEqualsIff(p, "contains");
    Text.LowerEqualsIff(p, "does not contain");
    Text.LowerEqualsIff(p, "does not equal");
    Text.LowerEqualsIff(p, "equals");
    Text.LowerEqualsIff(p, "less than");
  }

  function Operator(k: Kind): string
  {
    match k
    case Like => "LIKE"
    case NotLike => "NOT LIKE"
    case Less => "<"
    case Greater => ">"
  }

  function Suffix(k: Kind): string
  {
    match k
    case Like => "_like"
    case NotLike => "_not_like"
    case Less => "_lt"
    case Greater => "_gt"
  }

  /** The placeholder name: the column name followed by the kind's suffix. */
  function ParamName(attr: string, k: Kind): string
  {
    attr + Suffix(k)
  }

  /** The WHERE fragment `<attr> <op> :<placeholder>`. */
  function Fragment(attr: string, k: Kind): string
  {
    attr + " " + Operator(k) + " :" + ParamName(attr, k)
  }

  /** A bound value: a LIKE pattern, or a timestamp in whole seconds since 0001-01-01 00:00:00. */
  datatype ParamValue = Pattern(text: string) | Timestamp(seconds: int)

  /** The two accumulators: `where_conditions` and `params`. */
  datatype QueryParts = QueryParts(where: seq<string>, params: map<string, ParamValue>)

  /** What build_conditions can raise. */
  datatype TranslateError =
    | UndefinedName(name: string)   // NameError: the equality branches use a name that does not exist
    | InvalidInt(text: string)      // ValueError from int(value)
    | DateOutOfRange(days: int)     // OverflowError from now - timedelta(days)

  /** The last second a Python datetime can hold (9999-12-31 23:59:59), counted from datetime.min. */
  const MaxTimestamp: int := 315537897599  // 3652059 days of 86400 seconds, less one

  predicate InDateRange(t: int)
  {
    0 <= t <= MaxTimestamp
  }

  predicate Present(c: Condition)
  {
    c.field.Some? && c.pred.Some? && c.value.Some?
  }

  /** Append one fragment and set its placeholder, overwriting any earlier value under that name. */
  function Bind(q: QueryParts, attr: string, k: Kind, v: ParamValue): QueryParts
  {
    QueryParts(q.where + [Fragment(attr, k)], q.params[ParamName(attr, k) := v])
  }

  /** One call of build_conditions changes its accumulators by at most one Bind. */
  ghost predicate Extends(q: QueryParts, q': QueryParts)
  {
    q' == q || exists attr, k, v :: q' == Bind(q, attr, k, v)
  }

  /** Every fragment in the list names a placeholder that has a bound value. */
  ghost predicate Bound(q: QueryParts)
  {
    forall i :: 0 <= i < |q.where| ==>
      exists attr, k :: q.where[i] == Fragment(attr, k) && ParamName(attr, k) in q.params
  }

  /** `now - timedelta(days)`, in seconds: a day is exactly 86400 seconds. */
  function Threshold(now: int, days: int): int
  {
    now - days * 86400
  }

  /**
   * The date branch: `int(value)` days before `now`, compared with `<` for
   * `less than` and with `>` otherwise.
   */
  function DateCondition(q: QueryParts, lessThan: bool, value: string, now: int): (r: Result<QueryParts, TranslateError>)
  {
    match Text.ParseInt(value)
    case None => Err(InvalidInt(value))
    case Some(days) =>
      var threshold := Threshold(now, days);
      if !InDateRange(threshold) then Err(DateOutOfRange(days))
      else if lessThan then Ok(Bind(q, Fields.DateAttr, Less, Timestamp(threshold)))
      else Ok(Bind(q, Fields.DateAttr, Greater, Timestamp(threshold)))
  }

  /**
   * build_conditions as a function of the accumulators before the call:
   * the accumulators after it, or the error it raises (the accumulators are
   * then untouched, since every raise happens before the first update).
   * `now` is the clock reading, in whole seconds since 0001-01-01 00:00:00.
   */
  function Translate(q: QueryParts, c: Condition, now: int): (r: Result<QueryParts, TranslateError>)
    requires InDateRange(now)
    ensures !Present(c) ==> r == Ok(q)
    ensures r.Err? ==> Present(c)
    ensures r.Ok? ==> q.where <= r.value.where && |r.value.where| <= |q.where| + 1
    ensures r.Ok? ==> q.params.Keys <= r.value.params.Keys
  {
    if !Present(c) then Ok(q)
    else
      var attr := Fields.Resolve(c.field.value);
      var value := c.value.value;
      match ClassifyPredicate(Text.Lower(c.pred.value))
      case Contains => Ok(Bind(q, attr, Like, Pattern("%" + value + "%")))
      case DoesNotContain => Ok(Bind(q, attr, NotLike, Pattern("%" + value + "%")))
      case DoesNotEqual => Err(UndefinedName("conditions"))
      case Equals => Err(UndefinedName("conditions"))
      case LessThan => if attr == Fields.DateAttr then DateCondition(q, true, value, now) else Ok(q)
      case Other => if attr == Fields.DateAttr then DateCondition(q, false, value, now) else Ok(q)
  }

  /** Each call adds at most one fragment and sets at most the placeholder that fragment names. */
  lemma TranslateExtends(q: QueryParts, c: Condition, now: int)
    requires InDateRange(now)
    ensures Translate(q, c, now).Ok? ==> Extends(q, Translate(q, c, now).value)
  {
    var r := Translate(q, c, now);
    if Present(c) {
      var attr, v := Fields.Resolve(c.field.value), c.value.value;
      match ClassifyPredicate(Text.Lower(c.pred.value))
      case Contains =>
        var pattern := Pattern("%" + v + "%");
        assert r == Ok(Bind(q, attr, Like, pattern));
        BindExtends(q, attr, Like, pattern);
      case DoesNotContain =>
        var pattern := Pattern("%" + v + "%");
        assert r == Ok(Bind(q, attr, NotLike, pattern));
        BindExtends(q, attr, NotLike, pattern);
      case DoesNotEqual =>
      case Equals =>
      case LessThan =>
        if attr == Fields.DateAttr {
          DateConditionExtends(q, true, v, now);
          assert r == DateCondition(q, true, v, now);
        } else {
          assert r == Ok(q);
        }
      case Other =>
        if attr == Fields.DateAttr {
          DateConditionExtends(q, false, v, now);
          assert r == DateCondition(q, false, v, now);
        } else {
          assert r == Ok(q);
        }
    }
  }

  /** The date branch, when it succeeds, is one Bind. */
  lemma DateConditionExtends(q: QueryParts, lessThan: bool, value: string, now: int)
    ensures DateCondition(q, lessThan, value, now).Ok? ==> Extends(q, DateCondition(q, lessThan, value, now).value)
  {
    DateConditionBinds(q, lessThan, value, now);
    if DateCondition(q, lessThan, value, now).Ok? {
      var t := Threshold(now, Text.ParseInt(value).value);
      var k := if lessThan then Less else Greater;
      assert DateCondition(q, lessThan, value, now).value == Bind(q, Fields.DateAttr, k, Timestamp(t));
      BindExtends(q, Fields.DateAttr, k, Timestamp(t));
    }
  }

  lemma BindExtends(q: QueryParts, attr: string, k: Kind, v: ParamValue)
    ensures Extends(q, Bind(q, attr, k, v))
  {
  }

  /** A date condition that succeeds binds the threshold under the timestamp column. */
  lemma DateConditionBinds(q: QueryParts, lessThan: bool, value: string, now: int)
    ensures DateCondition(q, lessThan, value, now).Ok? ==>
      && Text.ParseInt(value).Some?
      && DateCondition(q, lessThan, value, now).value
         == Bind(q, Fields.DateAttr, if lessThan then Less else Greater, Timestamp(Threshold(now, Text.ParseInt(value).value)))
  {
  }

  /** Translating never leaves a fragment whose placeholder has no value. */
  lemma TranslateKeepsBound(q: QueryParts, c: Condition, now: int)
    requires InDateRange(now) && Bound(q)
    ensures Translate(q, c, now).Ok? ==> Bound(Translate(q, c, now).value)
  {
    var r := Translate(q, c, now);
    if r.Ok? && r.value != q {
      TranslateExtends(q, c, now);
      var attr, k, v :| r.value == Bind(q, attr, k, v);
      var q' := r.value;
      forall i | 0 <= i < |q'.where|
        ensures exists a, k' :: q'.where[i] == Fragment(a, k') && ParamName(a, k') in q'.params
      {
        if i == |q.where| {
          assert q'.where[i] == Fragment(attr, k) && ParamName(attr, k) in q'.params;
        } else {
          assert q'.where[i] == q.where[i];
          var a, k' :| q.where[i] == Fragment(a, k') && ParamName(a, k') in q.params;
          assert ParamName(a, k') in q'.params;
        }
      }
    }
  }

  /** The fragments of the four kinds, spelled out. */
  lemma FragmentTexts(attr: string)
    ensures Fragment(attr, Like) == attr + " LIKE :" + attr + "_like" && ParamName(attr, Like) == attr + "_like"
    ensures Fragment(attr, NotLike) == attr + " NOT LIKE :" + attr + "_not_like" && ParamName(attr, NotLike) == attr + "_not_like"
    ensures Fragment(attr, Less) == attr + " < :" + attr + "_lt" && ParamName(attr, Less) == attr + "_lt"
    ensures Fragment(attr, Greater) == attr + " > :" + attr + "_gt" && ParamName(attr, Greater) == attr + "_gt"
  {
    assert attr + " " + "LIKE" + " :" + (attr + "_like") == attr + " LIKE :" + attr + "_like";
    assert attr + " " + "NOT LIKE" + " :" + (attr + "_not_like") == attr + " NOT LIKE :" + attr + "_not_like";
    assert attr + " " + "<" + " :" + (attr + "_lt") == attr + " < :" + attr + "_lt";
    assert attr + " " + ">" + " :" + (attr + "_gt") == attr + " > :" + attr + "_gt";
  }

  /** What one condition with all three keys contributes, by its lower-cased predicate. */
  lemma TranslateCases(q: QueryParts, c: Condition, now: int)
    requires InDateRange(now) && Present(c)
    ensures var attr, p, v := Fields.Resolve(c.field.value), ClassifyPredicate(Text.Lower(c.pred.value)), c.value.value;
      && (p == Contains ==>
            Translate(q, c, now) == Ok(QueryParts(q.where + [attr + " LIKE :" + attr + "_like"],
                                                  q.params[attr + "_like" := Pattern("%" + v + "%")])))
      && (p == DoesNotContain ==>
            Translate(q, c, now) == Ok(QueryParts(q.where + [attr + " NOT LIKE :" + attr + "_not_like"],
                                                  q.params[attr + "_not_like" := Pattern("%" + v + "%")])))
      && (p == Equals || p == DoesNotEqual ==> Translate(q, c, now) == Err(UndefinedName("conditions")))
      && ((p == LessThan || p == Other) && attr != Fields.DateAttr ==> Translate(q, c, now) == Ok(q))
  {
    FragmentTexts(Fields.Resolve(c.field.value));
  }

  /**
   * A condition on the timestamp column whose predicate is none of the four
   * string ones: `less than` compares with `<`, every other predicate with
   * `>`, against now minus the value in days; a value `int()` rejects raises,
   * and so does a threshold outside the range of a Python datetime.
   */
  lemma TranslateDate(q: QueryParts, c: Condition, now: int)
    requires InDateRange(now) && Present(c)
    requires Fields.Resolve(c.field.value) == Fields.DateAttr
    requires ClassifyPredicate(Text.Lower(c.pred.value)) in {LessThan, Other}
    ensures Text.ParseInt(c.value.value).None? ==> Translate(q, c, now) == Err(InvalidInt(c.value.value))
    ensures Text.ParseInt(c.value.value).Some? ==>
      var days := Text.ParseInt(c.value.value).value;
      var t := Threshold(now, days);
      var k := if ClassifyPredicate(Text.Lower(c.pred.value)) == LessThan then Less else Greater;
      && (!(0 <= t <= MaxTimestamp) ==> Translate(q, c, now) == Err(DateOutOfRange(days)))
      && (0 <= t <= MaxTimestamp ==> Translate(q, c, now) == Ok(Bind(q, Fields.DateAttr, k, Timestamp(t))))
  {
    var lessThan := ClassifyPredicate(Text.Lower(c.pred.value)) == LessThan;
    var v := c.value.value;
    var r := Translate(q, c, now);
    assert r == DateCondition(q, lessThan, v, now);
    match Text.ParseInt(v)
    case None =>
      assert r == Err(InvalidInt(v));
    case Some(days) =>
      var t := Threshold(now, days);
      if InDateRange(t) {
        DateConditionBinds(q, lessThan, v, now);
        assert r == Ok(Bind(q, Fields.DateAttr, if lessThan then Less else Greater, Timestamp(t)));
      } else {
        assert r == Err(DateOutOfRange(days));
      }
  }

  /** The two fragments a date condition can add, as the database sees them. */
  lemma DateFragments()
    ensures Fragment(Fields.DateAttr, Less) == "received_date < :received_date_lt"
    ensures ParamName(Fields.DateAttr, Less) == "received_date_lt"
    ensures Fragment(Fields.DateAttr, Greater) == "received_date > :received_date_gt"
    ensures ParamName(Fields.DateAttr, Greater) == "received_date_gt"
  {
  }

  /** A `From contains v` condition on empty accumulators (the repository's own example has v = test@example.com). */
  lemma ContainsExample(v: string, now: int)
    requires InDateRange(now)
    ensures Translate(QueryParts([], map[]), Condition(Some("From"), Some("contains"), Some(v)), now)
         == Ok(QueryParts(["sender LIKE :sender_like"], map["sender_like" := Pattern("%" + v + "%")]))
  {
    var c := Condition(Some("From"), Some("contains"), Some(v));
    var empty := QueryParts([], map[]);
    var pattern := Pattern("%" + v + "%");
    assert Fields.Resolve("From") == "sender" by {
      assert Fields.Items[0] == ("From", "sender");
    }
    assert ClassifyPredicate(Text.Lower("contains")) == Contains by {
      ClassifyNames();
    }
    assert Translate(empty, c, now) == Ok(Bind(empty, "sender", Like, pattern));
    assert Bind(empty, "sender", Like, pattern) == QueryParts(["sender LIKE :sender_like"], map["sender_like" := pattern]) by {
      assert Fragment("sender", Like) == "sender LIKE :sender_like";
      assert ParamName("sender", Like) == "sender_like";
      assert [] + ["sender LIKE :sender_like"] == ["sender LIKE :sender_like"];
    }
  }

  /** The predicate is matched case-insensitively: predicates equal after lower-casing translate alike. */
  lemma PredicateCaseIgnored(q: QueryParts, c: Condition, p: string, now: int)
    requires InDateRange(now) && Present(c)
    requires Text.Lower(p) == Text.Lower(c.pred.value)
    ensures Translate(q, c.(pred := Some(p)), now) == Translate(q, c, now)
  {
  }

  /**
   * A field the table does not know is not skipped: it is translated with the
   * empty column name.
   */
  lemma UnknownFieldNotSkipped(q: QueryParts, now: int)
    requires InDateRange(now)
    ensures Translate(q, Condition(Some("Cc"), Some("contains"), Some("x")), now)
         == Ok(QueryParts(q.where + [" LIKE :_like"], q.params["_like" := Pattern("%x%")]))
  {
    var c := Condition(Some("Cc"), Some("contains"), Some("x"));
    assert Fields.Resolve("Cc") == "" by {
      assert forall i :: 0 <= i < |Fields.Items| ==> Fields.Items[i].0 != "Cc" by {
        assert |"Cc"| != |"From"| && |"Cc"| != |"Subject"| && |"Cc"| != |"Date"| && |"Cc"| != |"Received Date"|;
        assert "Cc"[0] != "To"[0];
      }
    }
    ClassifyNames();
    assert Present(c);
    assert ClassifyPredicate(Text.Lower(c.pred.value)) == Contains;
    assert "%" + "x" + "%" == "%x%";
    assert Translate(q, c, now) == Ok(Bind(q, "", Like, Pattern("%" + "x" + "%")));
    assert Fragment("", Like) == " LIKE :_like";
    assert ParamName("", Like) == "_like";
  }

  /**
   * Two conditions with the same column and the same kind share one
   * placeholder: both fragments are kept, and the second value replaces the first.
   */
  lemma SamePlaceholderOverwrites(q: QueryParts, c1: Condition, c2: Condition, now: int)
    requires InDateRange(now) && Present(c1) && Present(c2)
    requires Fields.Resolve(c1.field.value) == Fields.Resolve(c2.field.value)
    requires ClassifyPredicate(Text.Lower(c1.pred.value)) == ClassifyPredicate(Text.Lower(c2.pred.value)) == Contains
    ensures Translate(q, c1, now).Ok?
    ensures var q1 := Translate(q, c1, now).value;
      var attr := Fields.Resolve(c1.field.value);
      && Translate(q1, c2, now).Ok?
      && Translate(q1, c2, now).value.where == q.where + [Fragment(attr, Like), Fragment(attr, Like)]
      && Translate(q1, c2, now).value.params == q.params[ParamName(attr, Like) := Pattern("%" + c2.value.value + "%")]
  {
    var attr := Fields.Resolve(c1.field.value);
    var q1 := Translate(q, c1, now).value;
    assert q1 == Bind(q, attr, Like, Pattern("%" + c1.value.value + "%"));
    assert q1.where + [Fragment(attr, Like)] == q.where + [Fragment(attr, Like), Fragment(attr, Like)];
  }

  /** Extending keeps every earlier fragment in place and every earlier placeholder bound. */
  lemma ExtendsKeeps(q: QueryParts, q': QueryParts)
    requires Extends(q, q')
    ensures q.where <= q'.where && |q'.where| <= |q.where| + 1
    ensures q.params.Keys <= q'.params.Keys
    ensures |q'.where| == |q.where| ==> q' == q
  {
    if q' != q {
      var attr, k, v :| q' == Bind(q, attr, k, v);
    }
  }

  /** The accumulators build_conditions mutates: a list and a dictionary, shared across calls. */
  class QueryState {
    var whereConditions: seq<string>
    var params: map<string, ParamValue>

    constructor ()
      ensures whereConditions == [] && params == map[]
    {
      whereConditions := [];
      params := map[];
    }

    function Parts(): QueryParts
      reads this
    {
      QueryParts(whereConditions, params)
    }
  }

  /**
   * build_conditions: updates the shared list and dictionary in place, or
   * returns the error it raised with both untouched.
   */
  method BuildConditions(st: QueryState, c: Condition, now: int) returns (raised: Option<TranslateError>)
    requires InDateRange(now)
    modifies st
    ensures raised.None? ==> Translate(old(st.Parts()), c, now) == Ok(st.Parts())
    ensures raised.Some? ==> Translate(old(st.Parts()), c, now) == Err(raised.value) && st.Parts() == old(st.Parts())
  {
    if c.field.None? || c.pred.None? || c.value.None? {
      return None;
    }
    ghost var q := st.Parts();
    assert q == old(st.Parts());
    var attr := Fields.Resolve(c.field.value);
    var pred := ClassifyPredicate(Text.Lower(c.pred.value));
    var value := c.value.value;
    if pred == Contains {
      assert Translate(q, c, now) == Ok(Bind(q, attr, Like, Pattern("%" + value + "%")));
      st.whereConditions := st.whereConditions + [Fragment(attr, Like)];
      st.params := st.params[ParamName(attr, Like) := Pattern("%" + value + "%")];
      assert st.Parts() == Bind(q, attr, Like, Pattern("%" + value + "%"));
      return None;
    } else if pred == DoesNotContain {
      assert Translate(q, c, now) == Ok(Bind(q, attr, NotLike, Pattern("%" + value + "%")));
      st.whereConditions := st.whereConditions + [Fragment(attr, NotLike)];
      st.params := st.params[ParamName(attr, NotLike) := Pattern("%" + value + "%")];
      assert st.Parts() == Bind(q, attr, NotLike, Pattern("%" + value + "%"));
      return None;
    } else if pred == DoesNotEqual {
      return Some(UndefinedName("conditions"));
    } else if pred == Equals {
      return Some(UndefinedName("conditions"));
    } else if attr == Fields.DateAttr {
      assert Translate(q, c, now) == DateCondition(q, pred == LessThan, value, now);
      var days := Text.ParseInt(value);
      if days.None? {
        return Some(InvalidInt(value));
      }
      var threshold := Threshold(now, days.value);
      if !InDateRange(threshold) {
        return Some(DateOutOfRange(days.value));
      }
      if pred == LessThan {
        st.whereConditions := st.whereConditions + [Fragment(attr, Less)];
        st.params := st.params[ParamName(attr, Less) := Timestamp(threshold)];
        assert st.Parts() == Bind(q, attr, Less, Timestamp(threshold));
        return None;
      } else {
        st.whereConditions := st.whereConditions + [Fragment(attr, Greater)];
        st.params := st.params[ParamName(attr, Greater) := Timestamp(threshold)];
        assert st.Parts() == Bind(q, attr, Greater, Timestamp(threshold));
        return None;
      }
    } else {
      assert Translate(q, c, now) == Ok(q);
    }
    return None;
  }
}
