/**
 * The `fields` table: which mail header / rule field names the engine knows,
 * and the column of the `email` table each one is stored in.
 */
module Fields {
  import opened Wrappers

  /** The table's entries in insertion order (the order `fields.items()` yields). */
  const Items: seq<(string, string)> :=
    [("From", "sender"), ("Subject", "subject"), ("To", "recepient"),
     ("Date", "received_date"), ("Received Date", "received_date")]

  /** The one column holding a timestamp; date predicates apply only to it. */
  const DateAttr: string := "received_date"

  /** The columns the table can name. */
  const Attributes: set<string> := {"sender", "subject", "recepient", "received_date"}

  /** Dictionary lookup over an association list: the value of the first entry with that key. */
  function LookupIn(items: seq<(string, string)>, name: string): (r: Option<string>)
    ensures r.None? <==> forall i :: 0 <= i < |items| ==> items[i].0 != name
    ensures r.Some? ==> exists i :: 0 <= i < |items| && items[i] == (name, r.value)
  {
    if items == [] then None
    else if items[0].0 == name then Some(items[0].1)
    else LookupIn(items[1..], name)
  }

  /** `fields[name]` when `name in fields`, None otherwise. */
  function Lookup(name: string): (r: Option<string>)
    ensures r.None? <==> forall i :: 0 <= i < |Items| ==> Items[i].0 != name
    ensures r.Some? ==> r.value in Attributes
    ensures forall i :: 0 <= i < |Items| && Items[i].0 == name ==> r == Some(Items[i].1)
  {
    KeysDistinct();
    LookupIn(Items, name)
  }

  /** `fields.get(name, '')`: the column for a known name, the empty name for any other. */
  function Resolve(name: string): (attr: string)
    ensures attr == "" <==> forall i :: 0 <= i < |Items| ==> Items[i].0 != name
    ensures attr != "" ==> attr in Attributes
    ensures forall i :: 0 <= i < |Items| && Items[i].0 == name ==> attr == Items[i].1
  {
    match Lookup(name)
    case Some(a) => a
    case None => ""
  }

  /** No name occurs twice in the table, so each name has exactly one column. */
  lemma KeysDistinct()
    ensures forall i, j :: 0 <= i < j < |Items| ==> Items[i].0 != Items[j].0
  {
  }

  /** The table as the rule file uses it: both date names share the timestamp column. */
  lemma ResolveTable()
    ensures Resolve("From") == "sender"
    ensures Resolve("Subject") == "subject"
    ensures Resolve("To") == "recepient"
    ensures Resolve("Date") == DateAttr && Resolve("Received Date") == DateAttr
    ensures Resolve("from") == ""
  {
    assert Resolve("From") == "sender" by {
      assert Items[0] == ("From", "sender");
    }
    assert Resolve("Subject") == "subject" by {
      assert Items[1] == ("Subject", "subject");
    }
    assert Resolve("To") == "recepient" by {
      assert Items[2] == ("To", "recepient");
    }
    assert Resolve("Date") == DateAttr by {
      assert Items[3] == ("Date", DateAttr);
    }
    assert Resolve("Received Date") == DateAttr by {
      assert Items[4] == ("Received Date", DateAttr);
    }
    assert Resolve("from") == "" by {
      assert Items[0].0 != "from" by { assert Items[0].0[0] != "from"[0]; }
      assert Items[1].0 != "from" by { assert |Items[1].0| != |"from"|; }
      assert Items[2].0 != "from" by { assert |Items[2].0| != |"from"|; }
      assert Items[3].0 != "from" by { assert Items[3].0[0] != "from"[0]; }
      assert Items[4].0 != "from" by { assert |Items[4].0| != |"from"|; }
      assert |Items| == 5;
    }
  }
}
