# fetch_gmail rule engine — a Dafny model

This project models the rule engine of `fetch_gmail`, a script that copies
Gmail inbox metadata into a local SQLite table and then applies rules to it.
A rule is a list of conditions (field, predicate, value), a combinator
(`"All"` or anything else) and a list of action names. The model covers:

- **the fields table** (`fields.dfy`): which header and rule field names the engine knows, and the column of the `email` table each one fills;
- **the condition translator** `build_conditions` (`conditions.dfy`): one condition becomes one WHERE fragment with a named placeholder plus the value bound to it. The fragment list and the parameter dictionary are a `QueryState` object, updated in place;
- **the rule aggregator** `build_query_based_on_rules` (`rules.dfy`): every condition of every rule is translated. The fragments are joined with AND or OR, the query runs against the local store, and the selected ids are appended to three lists (mark read, mark unread, move to inbox);
- **the batch dispatcher** `modify_api_call` (`dispatch.dfy`): one batchModify request per non-empty list, each answered by a status that is reported as a success (200 or 204) or a failure;
- **the pass** `modify_emails`, with the exception handler of `main` (`pipeline.dfy`);
- **the header mapping** of `fetch_emails` (`ingest.dfy`): how a fetched message's headers become the row stored for it;
- **the Python string operations** these use (`text.dfy`): ASCII `str.lower`, `int()` on text, `str.join`.

Every loop of the source is a Dafny `method` with a `for` loop. Each method is proved equal to a specification function (`BuildConditions` to `Translate`, `BuildQueryBasedOnRules` to `Aggregate`, `ModifyApiCall` to `Requests`/`Reports`, `MapHeaders` to `Record`). The lemmas state what those functions guarantee.

The clock, the local database, the remote mailbox and the date parser are parameters:

- `now` is the clock reading, in whole seconds since 0001-01-01 00:00:00, one reading for the whole pass;
- a `Store` maps a statement and its parameters to the selected `message_id` values, or to None when execution fails;
- a `Responder` maps a request to its status code;
- a `DateParser` maps header text to a timestamp, or to None when parsing raises.

### Where the model follows the code rather than the documented intent

- **The fragment list and the parameter dictionary are created once, before the rule loop.** So every rule's query also carries the fragments of all earlier rules, joined with that rule's own combinator (`Rules.RuleClauseCarriesEarlierRules`). The selected ids therefore depend on rule order.
- **A rule reached with no fragments at all runs `SELECT message_id FROM email WHERE ` and aborts the whole pass** (`Rules.NoFragmentsAborts`). It does not match nothing.
- **The `equals` and `does not equal` predicates always raise.** They append to an undefined name, so the condition is reported and skipped (`Conditions.TranslateCases`).
- **A field name missing from the table is not skipped.** It is translated with the empty column name (`Conditions.UnknownFieldNotSkipped`), and the query then fails.
- **The id lists are not deduplicated.** An id is appended once per matching action and per rule (`Rules.DistributeCounts`).
- **Only the `Date` header is parsed.** `Received Date` stores the raw header text in the same column, and the later of the two headers wins (`Ingest.ReceivedDateOverridesDate`, `Ingest.DateOverridesReceivedDate`).
- **`less than N` selects mail older than N days.** The fragment is `received_date < :received_date_lt`, bound to now minus N days, so it matches messages received before that moment; any other predicate on a date gives `>`, mail newer than N days (`Conditions.TranslateDate`).
- **A missing rule key raises a KeyError that nothing in the aggregator catches:** `conditions`, `predicate` (the rule-level combinator) or `actions`. The pass therefore aborts and nothing is dispatched (`Pipeline.FullFlowExample`).

## Model

| member | source | states |
|---|---|---|
| Fields.LookupIn | script.py:19-20 | A dictionary lookup on an association list: None exactly when no entry has the key, otherwise the value of an entry with that key |
| Fields.Lookup | script.py:19-20 | `name in fields`: None exactly when the name is not a table key; a found column is one of the four attributes, and it is the table's value for that name |
| Fields.Resolve | script.py:137 | `fields.get(name, '')`: the empty name exactly for names outside the table, otherwise the name's column |
| Fields.KeysDistinct | script.py:19-20 | No field name occurs twice in the table |
| Fields.ResolveTable | script.py:19-20 | From, Subject and To map to sender, subject and recepient; Date and Received Date both map to received_date; lookup is case-sensitive (`from` is unknown) |
| Text.Lower | script.py:138 | Lower-casing keeps the length |
| Text.LowerSpec | script.py:138 | Each upper-case letter becomes its lower-case partner (32 code points on), every other character is unchanged, and no upper-case letter is left |
| Text.LowerKeepsLowerCase | script.py:138 | A string without upper-case letters is its own lower-case form |
| Text.LowerIdempotent | script.py:138 | Lower-casing twice equals lower-casing once |
| Text.LowerEqualsIff | script.py:138 | For a name without capitals, `p.lower()` equals the name exactly when `p` spells it in some letter case (`Text.CaseVariant`) |
| Text.TrimStart | script.py:159 | Leading white space is removed: the result is a suffix of the input, everything cut off is white space, the result does not start with white space, and a string that does not start with white space is kept |
| Text.TrimEnd | script.py:159 | Trailing white space is removed: the result is a prefix of the input, everything cut off is white space, the result does not end with white space, and a string that does not end with white space is kept |
| Text.Strip | script.py:159 | The text `int()` reads has no white space at either end, and a string without it is kept |
| Text.StripIsSlice | script.py:159 | `strip()` returns a slice of its input with nothing but white space before and after it |
| Text.ParseInt | script.py:159 | Definition of `int(value)`: surrounding white space is stripped, one optional sign, then decimal digits with single underscores between digits; anything else raises (None). Its properties are stated by `Text.ParseDigitsAlone` and `Text.ParseShowInt` |
| Text.ShowNat | script.py:159 | Decimal text is non-empty and made of digits only |
| Text.DigitsValueOfShowNat | script.py:159 | Reading back the decimal digits of n gives n |
| Text.ParseDigitsAlone | script.py:159 | `int()` accepts well-formed digits, with or without a minus sign, and returns their value |
| Text.ParseShowInt | script.py:159 | `int(str(i)) == i` for every integer i: a day count written in decimal is read back exactly |
| Text.Join | script.py:186-189 | Joining no parts gives the empty string, one part gives that part, and the first part starts the result |
| Text.JoinEmptyIff | script.py:186-189 | Joining non-empty parts gives the empty string exactly when there are no parts |
| Text.JoinAppend | script.py:186-189 | One more part extends the joined text by the separator and that part |
| Conditions.ClassifyNames | script.py:138-160 | Predicates match after lower-casing: Contains and contains are one predicate; `greater than` matches none of the five names |
| Conditions.ClassifyPredicate | script.py:141-157 | Definition of the if-chain on the lower-cased predicate: the five names in the order the source tests them, anything else `Other`; stated by `Conditions.ClassifyCaseVariants` |
| Conditions.ClassifyCaseVariants | script.py:138-157 | Each of the five predicate names is recognised exactly when the predicate spells it in some letter case |
| Conditions.Translate | script.py:124-167 | A condition missing a key leaves the accumulators unchanged; an error occurs only when all keys are present; the fragment list only grows, by at most one; no placeholder is removed |
| Conditions.TranslateExtends | script.py:141-165 | Each call changes the accumulators by at most one appended fragment and its placeholder |
| Conditions.TranslateKeepsBound | script.py:141-165 | Every fragment keeps a bound value for its placeholder |
| Conditions.FragmentTexts | script.py:142-164 | The four fragment shapes `attr LIKE :attr_like`, `attr NOT LIKE :attr_not_like`, `attr < :attr_lt` and `attr > :attr_gt`, and their placeholder names |
| Conditions.TranslateCases | script.py:141-157 | contains and does not contain append a LIKE or NOT LIKE fragment bound to `%value%`; equals and does not equal raise NameError; any other predicate on a column other than received_date does nothing |
| Conditions.TranslateDate | script.py:157-165 | On received_date: `less than` gives `<`, any other predicate `>`, against now minus value days; an unparsable value or a date out of range raises |
| Conditions.DateConditionBinds | script.py:157-165 | A date condition that succeeds has a value `int()` reads, and binds now minus that many 86400-second days under received_date with `<` or `>` |
| Conditions.DateConditionExtends | script.py:157-165 | The date branch, when it succeeds, adds exactly one fragment and its placeholder |
| Conditions.DateCondition | script.py:157-165 | Definition of the date branch: `int(value)` raises on bad text, a threshold before year 1 or after year 9999 raises, otherwise `<` for `less than` and `>` for anything else is bound to now minus the days; stated by `Conditions.TranslateDate` and `Conditions.DateConditionBinds` |
| Conditions.DateFragments | script.py:161-164 | The two date fragments as the database sees them |
| Conditions.ContainsExample | pytests.py:39-49 | `From contains v` on empty accumulators gives the one fragment `sender LIKE :sender_like` and the one parameter `%v%` |
| Conditions.PredicateCaseIgnored | script.py:138 | Predicates that are equal after lower-casing translate alike |
| Conditions.UnknownFieldNotSkipped | script.py:137-143 | An unknown field is translated with the empty column name: ` LIKE :_like` |
| Conditions.SamePlaceholderOverwrites | script.py:141-143 | Two contains conditions on one column keep both fragments; the second value overwrites the shared placeholder |
| Conditions.ExtendsKeeps | script.py:141-165 | Extending keeps earlier fragments and placeholders; a call that adds no fragment changes nothing |
| Conditions.QueryState.constructor | script.py:172-173 | The accumulators start empty |
| Conditions.BuildConditions | script.py:124-167 | Updates the shared list and dictionary in place exactly as `Translate` says; on a raise it returns the error and leaves both unchanged |
| Rules.AbortIsFinal | script.py:176-205 | Once a rule aborts, the later rules change nothing: the pass ends with that abort |
| Rules.Execute | script.py:192-194 | Definition of running a rule's query: no result when nothing follows WHERE or a fragment has no column name, otherwise the store's answer |
| Rules.TranslateAll | script.py:178-183 | Definition of the condition loop: each condition is translated in turn, and one that raises leaves the accumulators as they were; stated by `Rules.TranslateAllExtends` and `Rules.OwnFragmentsAppended` |
| Rules.Distribute | script.py:199-205 | Definition of the action loop: each known action name extends its list by the rule's ids; stated by `Rules.DistributeCounts` |
| Rules.RunRule | script.py:176-205 | Definition of one iteration of the rule loop, with the KeyError for a missing `conditions`, `predicate` or `actions` key and the failed query; stated by `Rules.RunRuleGrows` |
| Rules.RunRules | script.py:176-205 | Definition of the rule loop over a prefix of the rules: the first abort ends it; stated by `Rules.AbortIsFinal` and `Rules.RunRulesGrow` |
| Rules.Aggregate | script.py:170-207 | Definition of what build_query_based_on_rules returns (the three lists) or the exception it raises |
| Rules.ActionNamesDistinct | script.py:200-204 | The three action names differ |
| Rules.DistributeCounts | script.py:199-205 | Each list is extended by the rule's ids once per occurrence of its action name, in order and with duplicates kept; other names are ignored |
| Rules.UnknownActionIgnored | script.py:199-205 | An unknown action name leaves all three lists as they were |
| Rules.DistributeGrows | script.py:199-205 | Distributing only appends to each list |
| Rules.TranslateAllExtends | script.py:178-183 | The condition loop only appends fragments and adds parameters, and keeps every placeholder bound |
| Rules.RunRuleGrows | script.py:176-205 | A rule that runs only appends to the fragments, the parameters and each list |
| Rules.RunRulesGrow | script.py:170-207 | The state after any prefix of the rules is a prefix of the final state: buckets only grow, and later queries start with earlier fragments |
| Rules.RunRulesBound | script.py:176-194 | Every query the pass runs has a bound value for each placeholder |
| Rules.ClauseEmptyIff | script.py:185-192 | The WHERE clause is empty exactly when there are no fragments |
| Rules.NoFragmentsAborts | script.py:185-194 | A rule with no fragments at all runs `... WHERE ` with nothing after it and aborts the pass |
| Rules.EmptyFirstRuleAborts | script.py:170-194 | A first rule with an empty condition list aborts the whole pass |
| Rules.SeparatorCases | script.py:185-189 | `All` joins with AND; `Any` and `all` join with OR (the comparison is case-sensitive) |
| Rules.TranslateWhereIndependent | script.py:141-165 | Whether a condition raises, and which fragment it adds, does not depend on the accumulators it meets |
| Rules.DateConditionShift | script.py:157-165 | The same independence for the date branch |
| Rules.OwnFragmentsAppended | script.py:172-183 | A rule's fragments are the shared list it met, followed by its own fragments |
| Rules.RuleClauseCarriesEarlierRules | script.py:172-192 | A rule's SQL joins, with its own combinator, every earlier rule's fragments and then its own |
| Rules.CollectIds | script.py:196-197 | The row loop collects every returned id, in row order |
| Rules.ExtendLists | script.py:199-205 | The action loop extends the three lists exactly as `Distribute` describes |
| Rules.BuildQueryBasedOnRules | script.py:170-207 | Returns the three lists the rule loop computes, or the first abort |
| Dispatch.ChangesDistinct | script.py:220-234 | The three label changes differ, so a request determines its action |
| Dispatch.Requests | script.py:219-239 | Definition of the requests sent, in the order mark-read, mark-unread, move; stated by `Dispatch.RequestPerNonEmptyList` and `Dispatch.RequestsCarryAllIds` |
| Dispatch.Reports | script.py:222-241 | Definition of the printed outcome of each request, then the no-match line; stated by `Dispatch.ReportsFollowStatuses` |
| Dispatch.RequestPerNonEmptyList | script.py:219-239 | A request is sent for an action exactly when its list is non-empty; it carries the whole list, the label change and the bearer header; requests follow the order read, unread, move, at most one per action; none is sent exactly when all lists are empty |
| Dispatch.RequestsCarryAllIds | script.py:219-239 | Taken together, the requests carry exactly the read, unread and move ids, in that order |
| Dispatch.ReportsFollowStatuses | script.py:219-241 | Each request gets one report: a success exactly when the status is 200 or 204, otherwise a failure with the status; a failure status does not stop later requests; the no-match line appears exactly when nothing was sent |
| Dispatch.DispatchExample | pytests.py:53-86 | The test's three lists give three requests with the expected label changes; status 400 fails all three, status 200 succeeds all three |
| Dispatch.NothingSelected | script.py:240-241 | With all lists empty, nothing is sent and only `No rules matched` is reported |
| Dispatch.OutcomesAppend | script.py:230-239 | A further request adds exactly its own report after the earlier ones |
| Dispatch.ModifyApiCall | script.py:209-241 | Sends exactly `Requests` and reports exactly `Reports` for the three lists |
| Pipeline.ModifyEmails | script.py:115-121 | The pass aggregates and then dispatches; an abort is caught and nothing is sent |
| Pipeline.Run | script.py:115-121 | Definition of the pass: aggregate the rules, then dispatch the three lists; an exception from the aggregator ends the pass; stated by `Pipeline.RunPostsSelection` |
| Pipeline.RunPostsSelection | script.py:115-121 | The pass sends requests only when aggregation succeeds; the requests then carry exactly the selected ids; nothing is sent exactly when the no-match line is reported |
| Pipeline.FullFlowExample | script.py:115-121 | `modify_emails` given the rule of the full-flow fixture (pytests.py:99), which lacks `predicate`, aborts with that KeyError and sends nothing |
| Pipeline.MarkAsReadScenario | script.py:115-121 | With `From contains example.com`, combinator All and action Mark as Read: if the store returns m1, one RemoveLabelIds UNREAD request goes out for m1 and it is reported as done |
| Pipeline.ScenarioSelects | script.py:170-207 | For that rule the store is asked `SELECT message_id FROM email WHERE sender LIKE :sender_like` with `%example.com%`, and m1 lands in the read list |
| Ingest.Initial | script.py:42 | A record starts with exactly the message id and the INBOX label |
| Ingest.MatchItems | script.py:46-52 | Definition of the loop over the table's entries for one header; stated by `Ingest.MatchItemsLookup` and `Ingest.HeaderEffect` |
| Ingest.MatchHeaders | script.py:44-52 | Definition of the loop over a message's headers; a date that does not parse drops the record; stated by `Ingest.MatchHeadersKeys` and `Ingest.DroppedIffBadDate` |
| Ingest.Record | script.py:39-57 | Definition of the record stored for a message, or None when the message is skipped; stated by `Ingest.RecordKeys` |
| Ingest.NoMatchUnchanged | script.py:46-47 | A header matching no table entry leaves the record unchanged |
| Ingest.MatchItemsLookup | script.py:46-52 | With distinct keys, the inner loop does what a single lookup of the header name does |
| Ingest.HeaderEffect | script.py:45-52 | One header: an unknown name is ignored; Date stores the parsed time or drops the record; any other known name stores the raw value in its column |
| Ingest.MatchHeadersKeys | script.py:44-52 | Reading headers adds only table columns and keeps all other entries |
| Ingest.RecordKeys | script.py:42-52 | A stored record has the message id, the INBOX label, and otherwise only table columns |
| Ingest.DroppedIffBadDate | script.py:43-57 | A record is dropped exactly when some Date header fails to parse |
| Ingest.UnknownHeaderIgnored | script.py:45-47 | A header the table does not know has no effect |
| Ingest.TwoHeaders | script.py:45-52 | Two headers act one after the other |
| Ingest.DateColumnNames | script.py:19-20 | Date and Received Date share the received_date column |
| Ingest.ReceivedDateOverridesDate | script.py:46-52 | A Received Date after Date replaces the parsed time with the raw text |
| Ingest.DateOverridesReceivedDate | script.py:46-52 | A Date after Received Date replaces the raw text with the parsed time |
| Ingest.MapHeaders | script.py:39-57 | Builds exactly the record `Record` describes, or drops the message |

## Left out

- Sign-in (`gmail_authenticate`), the token file and the OAuth flow are left out. The bearer token is a parameter.
- Reading the rule file (`load_rules`) is left out. Rules come in already parsed; a missing key is an absent `Option`.
- Listing and fetching messages through the Gmail API is left out. The model starts from one message's id and headers.
- Creating the database session, `session.add`, `commit` and `close` are left out. The model does not cover what the database does when it stores a `Received Date` text in a DateTime column.
- HTTP is left out. A request is a value, and the remote mailbox is the `Responder` parameter.
- The printed messages of `modify_api_call` are `Report` values, not text. The other printed lines are dropped: the rule loop's `An error occurred` line for a condition that raised (the model only skips that condition), and the line `fetch_emails` prints for a message it skips.
- Dispatch.ModifyApiCall: an exception raised by `requests.post` is not modelled. The `Responder` always answers with a status, so the model's promise that a failure does not stop the later requests covers failure statuses only; in the source, an exception from one post stops the posts after it.
- The clock is read once per pass. The source calls `datetime.now()` anew for each date condition, so two date conditions of one pass can see slightly different times; the model gives them the same `now`.
- Rules.Execute: SQL evaluation is an oracle. The model rejects only two statements itself: one with nothing after WHERE, and one with a fragment lacking a column name. The store answers everything else.
- Conditions.Translate: the date threshold is bound as whole seconds since 0001-01-01. The `strftime('%Y-%m-%d %H:%M:%S')` text is not modelled, and fractions of a second are dropped.
- Text.Lower: ASCII letters only; Unicode case mapping is not modelled.
- Text.ParseInt: ASCII digits and ASCII white space only; Unicode digits and spaces are not modelled.
- Ingest.MapHeaders: date parsing (`dateutil.parser.parse`) is the `DateParser` parameter.
- `main`'s call of `fetch_emails` before `modify_emails` is left out. The two stages share the database and the global `ACCESS_TOKEN`: only sign-in, called from `fetch_emails`, sets the token that `modify_api_call` sends. The model takes the token as a parameter, and an exception in the fetch stage, which would stop `modify_emails` from running, is not modelled.
- Rules.BuildQueryBasedOnRules: actions are modelled as names. An action given in any other form, such as a dictionary, never equals a name and so behaves as an unknown name.
