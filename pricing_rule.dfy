/**
 * The pricing engine (calls/core/models/pricing_rule.py).
 *
 * A time of day is a whole number of seconds since midnight, 0..86399; a
 * timestamp is a whole number of UTC seconds and its time of day is
 * `ts % 86400`. Money is integer cents (the decimal fields have two places).
 * The rule table, read from the database in the source, is passed in as a
 * sequence in table order.
 *
 * Each of the three operations is a loop in the source; here each is a method
 * with that loop, proved equal to a recursive specification function. The
 * specification functions recurse on the LAST element, mirroring `append`.
 */
module PricingRule {

  import opened Helpers

  /** A time of day, `datetime.time` without microseconds. */
  type Time = t: int | 0 <= t < 86400

  const Midnight: Time := 0
  /** `time(23, 59, 59)`, the end given to the first half of a wrapping rule. */
  const EndOfDay: Time := 86399

  /** A stored pricing rule. `endTime` is exclusive; `startTime > endTime` means the band wraps past midnight. */
  datatype Rule = Rule(id: nat, startTime: Time, endTime: Time, standingCharge: int, minuteCallCharge: int)

  /** One entry of `rules()`: a band that does not wrap, tagged with its rule's id and charges. */
  datatype Band = Band(start: Time, end: Time, id: nat, standingCharge: int, minuteCallCharge: int)

  /** One entry of `prices_for_time_period`. */
  datatype PriceEntry = PriceEntry(pricingRuleId: nat, minutes: nat, callCharge: int, standingCharge: int)

  predicate Wraps(r: Rule) {
    r.startTime > r.endTime
  }

  // ---------------------------------------------------------------------------
  // rules(): band expansion

  /** The bands one rule contributes to `rules()`, in the order they are appended. */
  function ExpandRule(r: Rule): (bs: seq<Band>)
    ensures |bs| == if Wraps(r) then 2 else 1
    ensures forall k :: 0 <= k < |bs| ==>
      bs[k].id == r.id && bs[k].standingCharge == r.standingCharge &&
      bs[k].minuteCallCharge == r.minuteCallCharge && bs[k].start <= bs[k].end
    ensures bs[0].start == r.startTime && bs[|bs| - 1].end == r.endTime
    ensures Wraps(r) ==> bs[0].end == EndOfDay && bs[1].start == Midnight
  {
    if Wraps(r) then
      [Band(r.startTime, EndOfDay, r.id, r.standingCharge, r.minuteCallCharge),
       Band(Midnight, r.endTime, r.id, r.standingCharge, r.minuteCallCharge)]
    else
      [Band(r.startTime, r.endTime, r.id, r.standingCharge, r.minuteCallCharge)]
  }

  /** What `rules()` returns for a rule table. */
  function Expand(rules: seq<Rule>): seq<Band>
    decreases |rules|
  {
    if rules == [] then [] else Expand(rules[..|rules| - 1]) + ExpandRule(rules[|rules| - 1])
  }

  /** `PricingRule.rules()`. */
  method Rules(table: seq<Rule>) returns (result: seq<Band>)
    ensures result == Expand(table)
  {
    result := [];
    for i := 0 to |table|
      invariant result == Expand(table[..i])
    {
      var rule := table[i];
      if rule.startTime > rule.endTime {
        result := result + [Band(rule.startTime, EndOfDay, rule.id, rule.standingCharge, rule.minuteCallCharge)];
        result := result + [Band(Midnight, rule.endTime, rule.id, rule.standingCharge, rule.minuteCallCharge)];
      } else {
        result := result + [Band(rule.startTime, rule.endTime, rule.id, rule.standingCharge, rule.minuteCallCharge)];
      }
      assert table[..i + 1][..i] == table[..i];
    }
    assert table[..|table|] == table;
  }

  // ---------------------------------------------------------------------------
  // prices_for_time_period(): per-band clipping

  function Max(a: int, b: int): int { if a >= b then a else b }
  function Min(a: int, b: int): int { if a <= b then a else b }

  /** The out-of-band test of `prices_for_time_period`, negated: the call window and the band share time. */
  predicate Overlaps(b: Band, caseStart: Time, caseEnd: Time) {
    !(caseEnd < b.start || caseStart >= b.end)
  }

  /**
   * Seconds priced in a band: the window clipped to the band, measured as
   * `(to_timedelta(end) - to_timedelta(start)).seconds`, which is the
   * difference taken modulo one day.
   */
  function PricedSeconds(b: Band, caseStart: Time, caseEnd: Time): (s: nat)
    ensures s < SecondsPerDay
  {
    (Min(caseEnd, b.end) - Max(caseStart, b.start)) % SecondsPerDay
  }

  /** The entry a band contributes: whole minutes, charged at the band's minute rate. */
  function EntryFor(b: Band, caseStart: Time, caseEnd: Time): (e: PriceEntry)
    ensures e.pricingRuleId == b.id && e.standingCharge == b.standingCharge
    ensures e.minutes * 60 <= PricedSeconds(b, caseStart, caseEnd) < e.minutes * 60 + 60
    ensures e.callCharge == e.minutes * b.minuteCallCharge
  {
    var minutes := PricedSeconds(b, caseStart, caseEnd) / 60;
    PriceEntry(b.id, minutes, minutes * b.minuteCallCharge, b.standingCharge)
  }

  /** What the loop of `prices_for_time_period` builds from a band list. */
  function Entries(bands: seq<Band>, caseStart: Time, caseEnd: Time): seq<PriceEntry>
    decreases |bands|
  {
    if bands == [] then []
    else
      var last := bands[|bands| - 1];
      Entries(bands[..|bands| - 1], caseStart, caseEnd)
      + (if Overlaps(last, caseStart, caseEnd) then [EntryFor(last, caseStart, caseEnd)] else [])
  }

  /** `PricingRule.prices_for_time_period(case_start, case_end)` over the rule table `table`. */
  method PricesForTimePeriod(table: seq<Rule>, caseStart: Time, caseEnd: Time) returns (result: seq<PriceEntry>)
    ensures result == Entries(Expand(table), caseStart, caseEnd)
  {
    result := [];
    var rules := Rules(table);
    for i := 0 to |rules|
      invariant result == Entries(rules[..i], caseStart, caseEnd)
    {
      var rule := rules[i];
      assert rules[..i + 1][..i] == rules[..i];
      var ruleStart, ruleEnd := rule.start, rule.end;
      if caseEnd < ruleStart || caseStart >= ruleEnd {
        // the call lies outside this band
        continue;
      }
      var start: Time, end: Time;
      if caseStart < ruleStart && caseEnd < ruleEnd {
        start, end := ruleStart, caseEnd;
      } else if caseStart < ruleStart && caseEnd >= ruleEnd {
        start, end := ruleStart, ruleEnd;
      } else if caseStart >= ruleStart && caseEnd < ruleEnd {
        start, end := caseStart, caseEnd;
      } else {
        start, end := caseStart, ruleEnd;
      }
      var minutes := ((end - start) % SecondsPerDay) / 60;
      result := result + [PriceEntry(rule.id, minutes, minutes * rule.minuteCallCharge, rule.standingCharge)];
    }
    assert rules[..|rules|] == rules;
  }

  // ---------------------------------------------------------------------------
  // price()

  /** The time of day of a timestamp, `timestamp.time()`. */
  function TimeOf(timestamp: int): Time {
    timestamp % SecondsPerDay
  }

  /** Sum of the entries' minute charges. */
  function SumCharges(entries: seq<PriceEntry>): int
    decreases |entries|
  {
    if entries == [] then 0 else SumCharges(entries[..|entries| - 1]) + entries[|entries| - 1].callCharge
  }

  /** No entries cost nothing; otherwise every minute charge plus the FIRST entry's standing charge. */
  function PriceOf(entries: seq<PriceEntry>): int {
    if entries == [] then 0 else SumCharges(entries) + entries[0].standingCharge
  }

  /** The price `price(start, end)` computes, as a function of the rule table. */
  function PriceSpec(table: seq<Rule>, startTimestamp: int, endTimestamp: int): int {
    PriceOf(Entries(Expand(table), TimeOf(startTimestamp), TimeOf(endTimestamp)))
  }

  /** `PricingRule.price(start_timestamp, end_timestamp)`. */
  method Price(table: seq<Rule>, startTimestamp: int, endTimestamp: int) returns (charge: int)
    ensures charge == PriceSpec(table, startTimestamp, endTimestamp)
  {
    var prices := PricesForTimePeriod(table, TimeOf(startTimestamp), TimeOf(endTimestamp));
    var callCharge := 0;
    if |prices| > 0 {
      for i := 0 to |prices|
        invariant callCharge == SumCharges(prices[..i])
      {
        assert prices[..i + 1][..i] == prices[..i];
        callCharge := callCharge + prices[i].callCharge;
      }
      assert prices[..|prices|] == prices;
      var standingCharge := prices[0].standingCharge;
      return callCharge + standingCharge;
    } else {
      return callCharge;
    }
  }
}
