# Telephone billing core: tariff pricing and call aggregation

A Dafny model of the logic at the heart of a small Django telephone-billing
application: the pricing engine of `PricingRule`, the `Call` aggregator that
pairs START and END call detail records, the `time_between` helper and the
phone-number validator.

- `pricing_rule.dfy` (module `PricingRule`): pricing rules, the band list
  `rules()` builds (a rule that wraps past midnight, `start_time > end_time`,
  is split into `[start, 23:59:59]` and `[00:00:00, end]`), the per-band
  entries of `prices_for_time_period` (the call's time-of-day window clipped
  to each band, whole minutes, minute charge) and `price` (the minute charges
  plus the standing charge of the first entry). Each of the three source loops
  is a method with that loop, proved equal to a recursive specification
  function (`Expand`, `Entries`, `PriceOf`).
- `pricing_rule_properties.dfy` (module `PricingRuleProperties`): what those
  specification functions satisfy: rule order, band counts, well-formed bands,
  which bands yield entries and in what order, minute bounds, one standing
  charge, non-negative prices, independence from dates, and the prices of the
  source's test scenarios.
- `call.dfy` (module `Calls`): the call detail record, the `Call` class
  (`duration`, `calculate_price`), and the table of Calls as a class
  `CallStore` whose `Update` is `Call.update` and whose `DeleteDetail` is the
  cascade that deleting a detail record triggers.
- `helpers.dfy` (module `Helpers`): `time_between`.
- `validators.dfy` (module `Validators`): `phone_number_validator`.

Representation: a time of day is a whole number of seconds since midnight
(0..86399); a timestamp is a whole number of UTC seconds, and
`timestamp.time()` is `timestamp % 86400`. Money is integer cents, since every
decimal field has two decimal places. The rule table, read from the database
in the source, is a parameter (a sequence in table order). The framework
hooks become explicit calls: the post-save hook of a detail record is a call of
`CallStore.Update`, and the pre-save hook of a Call is a call of
`Call.CalculatePrice` inside `Update`.

`to_timedelta`, imported by `pricing_rule.py`, is not part of this model: it
is assumed to give the seconds since midnight of a time of day. The
`.seconds` of the difference of two such values is that difference modulo one
day, which is never negative.

Behaviour of the code worth knowing:

- The code does not walk the rule table cyclically across a call. `price`
  looks only at the two times of day, and a band yields an entry exactly when
  the end time is not before the band's start and the start time is before the
  band's end. The clipped window is then measured modulo one day. A call whose
  end time of day is earlier than its start time of day (one that passes
  midnight) is therefore billed for that wrapped-around difference in whichever
  bands pass the test, which can undercharge or overcharge it. With the two-rule
  table of the tests, a call from 23:00 to 00:30 the next day passes no band and
  costs 0.00 (`MidnightCrossingUnpriced`), while a call from 21:00 to 07:00 the
  next day passes only the 06:00-22:00 band and is billed 600 minutes at the
  day rate, 54.36 (`MidnightCrossingOvercharged`).
- The head band of a wrapping rule ends at 23:59:59, not at midnight, and a
  band's end is exclusive in the overlap test, so the last second of the day
  belongs to no band (`LastSecondUncovered`).
- Deleting a detail record deletes every Call that refers to it (both foreign
  keys are `on_delete=CASCADE`); the slot is not cleared and the Call does not
  survive.

## Model

| member | source | states |
|---|---|---|
| `PricingRule.ExpandRule` | calls/core/models/pricing_rule.py:35-64 | A rule that does not wrap gives one band with its start, end, id and charges; a wrapping rule gives two bands, `[start, 23:59:59]` then `[00:00:00, end]`, both with the rule's id and charges; no band has start after end |
| `PricingRule.Rules` | calls/core/models/pricing_rule.py:24-65 | The loop over the rule table returns exactly `Expand(table)`: each rule's bands, appended in table order |
| `PricingRuleProperties.ExpandAppend` | calls/core/models/pricing_rule.py:31-65 | Expanding two tables one after the other is expanding their concatenation: rule order is kept |
| `PricingRuleProperties.ExpandLength` | calls/core/models/pricing_rule.py:31-65 | The band list has one band per rule plus one per wrapping rule |
| `PricingRuleProperties.ExpandWellFormed` | calls/core/models/pricing_rule.py:35-64 | Every band in the expansion has start <= end |
| `PricingRuleProperties.ExpandAt` | calls/core/models/pricing_rule.py:34-64 | Rule `i`'s bands appear at position `i` + (wrapping rules before it), right after the bands of earlier rules |
| `PricingRuleProperties.ExpandRuleCovers` | calls/core/models/pricing_rule.py:35-54 | Except at 23:59:59, a time lies in a rule's cyclic band `[start, end)` iff one of its expanded bands passes the overlap test for a zero-length call at that time |
| `PricingRuleProperties.LastSecondUncovered` | calls/core/models/pricing_rule.py:39 | 23:59:59 lies in every wrapping rule but in none of its expanded bands |
| `PricingRule.EntryFor` | calls/core/models/pricing_rule.py:109-114 | An entry carries the band's id and standing charge; its minutes are the whole minutes of the priced seconds (floor), and its call charge is minutes times the minute charge |
| `PricingRule.PricesForTimePeriod` | calls/core/models/pricing_rule.py:67-118 | The loop with its four clipping branches returns exactly `Entries(Expand(table), start, end)`: for each band that overlaps the window, the entry of the window clipped to `[max(start, band start), min(end, band end)]` |
| `PricingRuleProperties.EntriesLength` | calls/core/models/pricing_rule.py:78-87 | There is one entry per overlapping band and no other, so at most one entry per band |
| `PricingRuleProperties.EntriesAt` | calls/core/models/pricing_rule.py:85-116 | An overlapping band's entry comes right after the entries of the bands before it: entries are in band order |
| `PricingRuleProperties.EntriesFrom` | calls/core/models/pricing_rule.py:85-116 | Every entry is the entry of some band that overlaps the window |
| `PricingRuleProperties.EntryBounds` | calls/core/models/pricing_rule.py:89-111 | When start <= end and the band does not wrap, the priced interval lies inside both the window and the band, its length is the seconds priced, minutes are at most `(end - start) // 60`, and the charge is non-negative for a non-negative rate |
| `PricingRuleProperties.EntriesMinutesBounded` | calls/core/models/pricing_rule.py:85-111 | When start <= end, every entry produced from a rule table has minutes in `[0, (end - start) // 60]` |
| `PricingRule.Price` | calls/core/models/pricing_rule.py:120-132 | The summing loop returns `PriceSpec`: 0 with no entries, otherwise the sum of all call charges plus the first entry's standing charge |
| `PricingRuleProperties.OneStandingCharge` | calls/core/models/pricing_rule.py:124-130 | Appending entries after the first adds only their call charges: exactly one standing charge per call |
| `PricingRuleProperties.PriceNonNegative` | calls/core/models/pricing_rule.py:109-130 | With non-negative charges in every rule, every price is non-negative |
| `PricingRuleProperties.NoEntriesFree` | calls/core/models/pricing_rule.py:131-132 | A call that yields no entries costs 0.00 |
| `PricingRuleProperties.EmptyTableFree` | calls/core/models/pricing_rule.py:31-32 | With no rules every call costs 0.00 |
| `PricingRuleProperties.PriceIgnoresDates` | calls/core/models/pricing_rule.py:122 | Moving either timestamp by whole days leaves the price unchanged |
| `PricingRuleProperties.StandardBands` | calls/core/tests/test_model_call.py:136-151 | The table 06:00-22:00 and 22:00-06:00 expands to `[06:00, 22:00]`, `[22:00, 23:59:59]`, `[00:00, 06:00]` |
| `PricingRuleProperties.ExamplePrice` | calls/core/tests/test_model_call.py:153-179 | 2016-02-29 21:57:13 to 22:17:53 with that table costs 0.54 |
| `PricingRuleProperties.DaytimePrice` | calls/core/models/pricing_rule.py:99-102 | A call from 12:00 to 14:00 on any day costs 120 x 0.09 + 0.36 = 11.16 |
| `PricingRuleProperties.MidnightCrossingUnpriced` | calls/core/models/pricing_rule.py:85-87 | A call from 23:00 to 00:30 the next day meets no band of that table and costs 0.00 |
| `PricingRuleProperties.MidnightCrossingOvercharged` | calls/core/models/pricing_rule.py:85-114 | A call from 21:00 to 07:00 the next day passes the overlap test of the 06:00-22:00 band only, whose clipped window is measured modulo one day as 600 minutes at 0.09, and costs 54.36 |
| `Helpers.TimeBetween` | calls/core/util/helpers.py:1-9 | hours*3600 + minutes*60 + seconds equals `end - start`; minutes and seconds lie in 0..59; hours >= 0 when end >= start |
| `Helpers.TimeBetweenUnique` | calls/core/util/helpers.py:5-8 | The result is the only normalised triple that adds up to `end - start` |
| `Helpers.TimeBetweenShift` | calls/core/util/helpers.py:5 | The result depends only on `end - start` |
| `Helpers.TimeBetweenSame` | calls/core/util/helpers.py:5-9 | Equal timestamps give 0h0m0s |
| `Helpers.TimeBetweenFoldsDays` | calls/core/tests/test_helpers.py:24-27 | One day and five seconds give 24h0m5s |
| `Helpers.TimeBetweenExample` | calls/core/tests/test_helpers.py:9-12 | 10:10:20 to 11:15:25 gives 1h5m5s |
| `Validators.DigitRun` | calls/core/validators.py:3 | Greedy `[0-9]*` from a position stops at the first non-digit or at the end |
| `Validators.PhoneNumberValidator` | calls/core/validators.py:3 | Accepts exactly the all-digit strings and the all-digit strings followed by one newline; otherwise rejects with "Only numbers are allowed." and code "Invalid phone number" |
| `Validators.NonDigitRejected` | calls/core/validators.py:3 | A non-digit anywhere except as a final newline means rejection |
| `Validators.LettersRejected` | calls/core/tests/test_api_call_detail.py:284-311 | "XY999999999" is rejected with "Only numbers are allowed." |
| `Validators.DigitsAccepted` | calls/core/validators.py:3 | Every digit string is accepted, the empty string included (with `s` empty) |
| `Validators.TrailingNewlineAccepted` | calls/core/validators.py:3 | A digit string followed by one newline is accepted |
| `Validators.ConcatPreservesValidity` | calls/core/validators.py:3 | Two valid strings, the first without a newline, concatenate to a valid string |
| `Validators.ConcatWithNewlineNotClosed` | calls/core/validators.py:3 | "1\n" and "2" are valid but their concatenation is not |
| `Validators.SubstringPreservesValidity` | calls/core/validators.py:3 | Every substring of a valid string is valid: a cut before the trailing newline leaves only digits, a cut that keeps it leaves digits followed by that newline |
| `Calls.Receive` | calls/core/models/call.py:101-113 | The slot named by the record's type holds the record; on creation the other slot is empty, otherwise it is unchanged |
| `Calls.ReceiveOrderIndependent` | calls/core/models/call.py:101-113 | START then END gives the same slots as END then START; from nothing, both slots filled |
| `Calls.Call.constructor` | calls/core/models/call.py:101-106 | A new Call has the given id and slots and no price yet |
| `Calls.Call.Duration` | calls/core/models/call.py:81-86 | Zero while a slot is empty; otherwise normalised hours, minutes, seconds adding up to end minus start, hours >= 0 when start <= end |
| `Calls.Call.CalculatePrice` | calls/core/models/call.py:88-93 | Sets the price to 0.00 while a slot is empty, otherwise to `price(start.timestamp, end.timestamp)`; nothing else changes |
| `Calls.CallStore.Update` | calls/core/models/call.py:95-113 | Afterwards exactly one Call has id `d.call_id`; it is new iff none existed; its slots are `Receive` of its old slots; it is repriced on save; every other Call, its slots and price are unchanged; every Call keeps a price |
| `Calls.CallStore.DeleteDetail` | calls/core/models/call.py:61-74 | A Call survives iff neither slot refers to the deleted record; survivors are unchanged |
| `Calls.ReceiveInEitherOrder` | calls/core/tests/test_model_call.py:219-245 | An empty store fed START then END, or END then START, ends with the same slots and the same price `price(start, end)` |

## Left out

- The ORM, signal registration, admin, URL routing, view sets and serializers: framework glue. The signal hooks are explicit calls (see above).
- `calls/core/models.py`: an older copy of the models that the `models/` package shadows; it is not part of this model.
- The bill endpoint (grouping by month of the end record, period checks) and the `"<h>h<m>m<s>s"` string form of a duration: their code is not part of this model. `Duration` returns the hours/minutes/seconds triple that `duration` returns.
- Boundary validations of detail records (source and destination required or forbidden by type, START not after END, one record per type per call, length 10-11): their code is not part of this model. `Update` is proved for every record, so it needs none of them as preconditions.
- Detail records are stored in a Call's slots as values, not as foreign keys. Editing a stored record reaches its Call only through the `Update` that the edit's save triggers; a record re-saved under another `call_id` leaves its old copy in the old Call.
- Microseconds: timestamps and times of day are whole seconds.
- Time zones: all timestamps are UTC seconds.
- The rule's `name` and the `__str__` methods: no logic.
- Decimal field limits: `max_digits=6` bounds prices and charges to 9999.99 in the database; the model uses unbounded integers of cents and does not model a save that exceeds the bound.
- Validators are applied by the framework only to non-empty values; `PhoneNumberValidator` is modelled on any string.
- Concurrency between writers of the same Call: the model is sequential.
