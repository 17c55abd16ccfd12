/**
 * The header mapping of `fetch_emails`: each fetched message becomes a row
 * of the `email` table, its id and label preset, then filled from the
 * message headers whose names the fields table knows. A `Date` header is
 * parsed into a timestamp; when parsing fails, or the message has no
 * headers, the message is reported and not stored.
 */
module Ingest {
  import opened Wrappers
  import Fields

  /** One header of the message metadata. */
  datatype Header = Header(name: string, value: string)

  /** A column value: text, or a timestamp in whole seconds since 0001-01-01 00:00:00. */
  datatype FieldValue = Plain(text: string) | DateTime(seconds: int)

  /** The record handed to the `Email` constructor, by column name. */
  type Row = map<string, FieldValue>

  /** The date parser: the timestamp a header value denotes, or None when it raises. */
  type DateParser = string -> Option<int>

  /** The record before any header is read. */
  function Initial(messageId: string): (row: Row)
    ensures row.Keys == {"message_id", "label"}
    ensures row["message_id"] == Plain(messageId) && row["label"] == Plain("INBOX")
  {
    map["message_id" := Plain(messageId), "label" := Plain("INBOX")]
  }

  /**
   * The inner loop for one header, from table entry `items[0]` on: a matching
   * `Date` entry stores the parsed time (None when parsing raises), any other
   * matching entry stores the raw value.
   */
  function MatchItems(row: Row, h: Header, items: seq<(string, string)>, parse: DateParser): Option<Row>
    decreases |items|
  {
    if items == [] then Some(row)
    else
      var (key, attr) := items[0];
      if h.name != key then MatchItems(row, h, items[1..], parse)
      else if key == "Date" then
        match parse(h.value)
        case None => None
        case Some(t) => MatchItems(row[attr := DateTime(t)], h, items[1..], parse)
      else MatchItems(row[attr := Plain(h.value)], h, items[1..], parse)
  }

  /** The outer loop, from header `headers[0]` on; the first failure drops the record. */
  function MatchHeaders(row: Row, headers: seq<Header>, parse: DateParser): Option<Row>
    decreases |headers|
  {
    if headers == [] then Some(row)
    else
      match MatchItems(row, headers[0], Fields.Items, parse)
      case None => None
      case Some(row') => MatchHeaders(row', headers[1..], parse)
  }

  /** The record stored for a message, or None when the message is reported and skipped. */
  function Record(messageId: string, headers: Option<seq<Header>>, parse: DateParser): Option<Row>
  {
    match headers
    case None => None
    case Some(hs) => MatchHeaders(Initial(messageId), hs, parse)
  }

  /** The effect of one header when the table has a given column for it. */
  function Fill(row: Row, h: Header, attr: string, parse: DateParser): Option<Row>
  {
    if h.name == "Date" then
      match parse(h.value)
      case None => None
      case Some(t) => Some(row[attr := DateTime(t)])
    else Some(row[attr := Plain(h.value)])
  }

  lemma {:induction false} NoMatchUnchanged(row: Row, h: Header, items: seq<(string, string)>, parse: DateParser)
    requires forall i :: 0 <= i < |items| ==> items[i].0 != h.name
    ensures MatchItems(row, h, items, parse) == Some(row)
    decreases |items|
  {
    if items != [] {
      NoMatchUnchanged(row, h, items[1..], parse);
    }
  }

  lemma {:induction false} MatchItemsLookup(row: Row, h: Header, items: seq<(string, string)>, parse: DateParser)
    requires forall i, j :: 0 <= i < j < |items| ==> items[i].0 != items[j].0
    ensures MatchItems(row, h, items, parse) ==
      match Fields.LookupIn(items, h.name)
      case None => Some(row)
      case Some(attr) => Fill(row, h, attr, parse)
    decreases |items|
  {
    if items != [] {
      if items[0].0 == h.name {
        match Fill(row, h, items[0].1, parse)
        case None =>
        case Some(row') =>
          NoMatchUnchanged(row', h, items[1..], parse);
      } else {
        MatchItemsLookup(row, h, items[1..], parse);
      }
    }
  }

  /**
   * What one header does, stated through the fields table directly: an
   * unknown name changes nothing, `Date` stores the parsed time or drops the
   * record, any other known name stores the raw value in its column.
   */
  lemma HeaderEffect(row: Row, h: Header, parse: DateParser)
    ensures MatchItems(row, h, Fields.Items, parse) ==
      match Fields.Lookup(h.name)
      case None => Some(row)
      case Some(attr) => Fill(row, h, attr, parse)
  {
    Fields.KeysDistinct();
    MatchItemsLookup(row, h, Fields.Items, parse);
  }

  /** A message whose headers were all read keeps its id and label, and gains only table columns. */
  lemma {:induction false} MatchHeadersKeys(row: Row, headers: seq<Header>, parse: DateParser)
    requires MatchHeaders(row, headers, parse).Some?
    ensures var row' := MatchHeaders(row, headers, parse).value;
      && row.Keys <= row'.Keys <= row.Keys + Fields.Attributes
      && (forall k :: k in row && k !in Fields.Attributes ==> row'[k] == row[k])
    decreases |headers|
  {
    if headers != [] {
      HeaderEffect(row, headers[0], parse);
      var next := MatchItems(row, headers[0], Fields.Items, parse).value;
      MatchHeadersKeys(next, headers[1..], parse);
    }
  }

  /** A stored record has its message id, the INBOX label, and otherwise only table columns. */
  lemma RecordKeys(messageId: string, headers: Option<seq<Header>>, parse: DateParser)
    requires Record(messageId, headers, parse).Some?
    ensures var row := Record(messageId, headers, parse).value;
      && row.Keys <= {"message_id", "label"} + Fields.Attributes
      && "message_id" in row && "label" in row
      && row["message_id"] == Plain(messageId) && row["label"] == Plain("INBOX")
  {
    assert "message_id" !in Fields.Attributes && "label" !in Fields.Attributes;
    MatchHeadersKeys(Initial(messageId), headers.value, parse);
  }

  /**
   * A record is dropped exactly when some `Date` header fails to parse:
   * one bad date loses the whole message, and nothing else can.
   */
  lemma {:induction false} DroppedIffBadDate(row: Row, headers: seq<Header>, parse: DateParser)
    ensures MatchHeaders(row, headers, parse).None? <==>
      exists i :: 0 <= i < |headers| && headers[i].name == "Date" && parse(headers[i].value).None?
    decreases |headers|
  {
    if headers != [] {
      HeaderEffect(row, headers[0], parse);
      assert Fields.Lookup("Date") == Some(Fields.DateAttr) by {
        assert Fields.Items[3] == ("Date", "received_date");
      }
      match MatchItems(row, headers[0], Fields.Items, parse)
      case None =>
        assert headers[0].name == "Date" && parse(headers[0].value).None?;
      case Some(next) =>
        DroppedIffBadDate(next, headers[1..], parse);
        if exists i :: 0 <= i < |headers[1..]| && headers[1..][i].name == "Date" && parse(headers[1..][i].value).None? {
          var i :| 0 <= i < |headers[1..]| && headers[1..][i].name == "Date" && parse(headers[1..][i].value).None?;
          assert headers[i + 1] == headers[1..][i];
        }
        if exists i :: 0 <= i < |headers| && headers[i].name == "Date" && parse(headers[i].value).None? {
          var i :| 0 <= i < |headers| && headers[i].name == "Date" && parse(headers[i].value).None?;
          assert i != 0;
          assert headers[1..][i - 1] == headers[i];
        }
    }
  }

  /** A header whose name is not in the table is ignored. */
  lemma UnknownHeaderIgnored(row: Row, h: Header, rest: seq<Header>, parse: DateParser)
    requires Fields.Lookup(h.name).None?
    ensures MatchHeaders(row, [h] + rest, parse) == MatchHeaders(row, rest, parse)
  {
    HeaderEffect(row, h, parse);
    assert ([h] + rest)[1..] == rest;
  }

  /** Two headers in a row: the first one's effect, then the second's. */
  lemma TwoHeaders(row: Row, a: Header, b: Header, parse: DateParser)
    ensures MatchHeaders(row, [a, b], parse) ==
      match MatchItems(row, a, Fields.Items, parse)
      case None => None
      case Some(row') => MatchItems(row', b, Fields.Items, parse)
  {
    assert [a, b][1..] == [b] && [b][1..] == [];
    match MatchItems(row, a, Fields.Items, parse)
    case None =>
    case Some(row') =>
      match MatchItems(row', b, Fields.Items, parse)
      case None =>
      case Some(row'') =>
        assert MatchHeaders(row'', [], parse) == Some(row'');
  }

  /** Storing into a column twice keeps only the second value. */
  lemma Overwrite(row: Row, attr: string, first: FieldValue, second: FieldValue)
    ensures row[attr := first][attr := second] == row[attr := second]
  {
  }

  lemma DateColumnNames()
    ensures Fields.Lookup("Date") == Some(Fields.DateAttr)
    ensures Fields.Lookup("Received Date") == Some(Fields.DateAttr)
    ensures "Received Date" != "Date"
  {
    assert Fields.Items[3] == ("Date", Fields.DateAttr) && Fields.Items[4] == ("Received Date", Fields.DateAttr);
    assert |"Received Date"| != |"Date"|;
  }

  /**
   * Both date headers fill the one timestamp column, and the later wins: a
   * `Received Date` after `Date` replaces the parsed time by the raw text.
   */
  lemma ReceivedDateOverridesDate(row: Row, date: string, received: string, t: int, parse: DateParser)
    requires parse(date) == Some(t)
    ensures MatchHeaders(row, [Header("Date", date), Header("Received Date", received)], parse)
         == Some(row[Fields.DateAttr := Plain(received)])
  {
    var d, r := Header("Date", date), Header("Received Date", received);
    var attr := Fields.DateAttr;
    DateColumnNames();
    var parsed := row[attr := DateTime(t)];
    HeaderEffect(row, d, parse);
    assert Fill(row, d, attr, parse) == Some(parsed);
    HeaderEffect(parsed, r, parse);
    assert Fill(parsed, r, attr, parse) == Some(parsed[attr := Plain(received)]);
    TwoHeaders(row, d, r, parse);
    Overwrite(row, attr, DateTime(t), Plain(received));
  }

  /** A `Date` after `Received Date` replaces the raw text by the parsed time. */
  lemma DateOverridesReceivedDate(row: Row, date: string, received: string, t: int, parse: DateParser)
    requires parse(date) == Some(t)
    ensures MatchHeaders(row, [Header("Received Date", received), Header("Date", date)], parse)
         == Some(row[Fields.DateAttr := DateTime(t)])
  {
    var d, r := Header("Date", date), Header("Received Date", received);
    var attr := Fields.DateAttr;
    DateColumnNames();
    var raw := row[attr := Plain(received)];
    HeaderEffect(row, r, parse);
    assert Fill(row, r, attr, parse) == Some(raw);
    HeaderEffect(raw, d, parse);
    assert Fill(raw, d, attr, parse) == Some(raw[attr := DateTime(t)]);
    TwoHeaders(row, r, d, parse);
    Overwrite(row, attr, Plain(received), DateTime(t));
  }

  /**
   * The header loop of fetch_emails for one message: the record starts with
   * the id and the INBOX label, every header is matched against every table
   * entry, and a failure (no headers, a date that does not parse) drops the message.
   */
  method MapHeaders(messageId: string, headers: Option<seq<Header>>, parse: DateParser) returns (record: Option<Row>)
    ensures record == Record(messageId, headers, parse)
  {
    if headers.None? {
      return None;
    }
    var hs := headers.value;
    var emailDict := Initial(messageId);
    for i := 0 to |hs|
      invariant MatchHeaders(emailDict, hs[i..], parse) == Record(messageId, headers, parse)
    {
      var each := hs[i];
      assert hs[i..][1..] == hs[i + 1..];
      ghost var start := emailDict;
      for j := 0 to |Fields.Items|
        invariant MatchItems(emailDict, each, Fields.Items[j..], parse) == MatchItems(start, each, Fields.Items, parse)
      {
        var (fieldKey, fieldValue) := Fields.Items[j];
        assert Fields.Items[j..][1..] == Fields.Items[j + 1..];
        if each.name == fieldKey {
          if fieldKey == "Date" {
            var receivedDate := parse(each.value);
            if receivedDate.None? {
              return None;
            }
            emailDict := emailDict[fieldValue := DateTime(receivedDate.value)];
          } else {
            emailDict := emailDict[fieldValue := Plain(each.value)];
          }
        }
      }
    }
    return Some(emailDict);
  }
}
