/**
 * Properties of the pricing engine (calls/core/models/pricing_rule.py),
 * stated about the specification functions that the methods of module
 * PricingRule are proved to compute.
 */
module PricingRuleProperties {

  import opened Helpers
  import opened PricingRule

  // ---------------------------------------------------------------------------
  // Band expansion

  /** Number of rules that wrap past midnight. */
  function WrapCount(rules: seq<Rule>): nat
    decreases |rules|
  {
    if rules == [] then 0
    else WrapCount(rules[..|rules| - 1]) + (if Wraps(rules[|rules| - 1]) then 1 else 0)
  }

  /** Expansion distributes over concatenation of rule tables: rule order is kept. */
  lemma {:induction false} ExpandAppend(a: seq<Rule>, b: seq<Rule>)
    ensures Expand(a + b) == Expand(a) + Expand(b)
    decreases |b|
  {
    if b == [] {
      assert a + b == a;
    } else {
      var b' := b[..|b| - 1];
      assert (a + b)[..|a + b| - 1] == a + b';
      assert (a + b)[|a + b| - 1] == b[|b| - 1];
      ExpandAppend(a, b');
    }
  }

  /** One band per rule, plus one more for every rule that wraps past midnight. */
  lemma {:induction false} ExpandLength(rules: seq<Rule>)
    ensures |Expand(rules)| == |rules| + WrapCount(rules)
    decreases |rules|
  {
    if rules != [] {
      ExpandLength(rules[..|rules| - 1]);
    }
  }

  /** No expanded band wraps: every band has start <= end. */
  lemma {:induction false} ExpandWellFormed(rules: seq<Rule>)
    ensures forall k :: 0 <= k < |Expand(rules)| ==> Expand(rules)[k].start <= Expand(rules)[k].end
    decreases |rules|
  {
    if rules != [] {
      var init := rules[..|rules| - 1];
      ExpandWellFormed(init);
      var tail := ExpandRule(rules[|rules| - 1]);
      assert Expand(rules) == Expand(init) + tail;
      forall k | 0 <= k < |Expand(rules)|
        ensures Expand(rules)[k].start <= Expand(rules)[k].end
      {
        if k >= |Expand(init)| {
          assert Expand(rules)[k] == tail[k - |Expand(init)|];
        }
      }
    }
  }

  /**
   * The bands of rule `i` sit at position `i + WrapCount(rules[..i])` of the
   * expansion, right after the bands of the rules before it.
   */
  lemma ExpandAt(rules: seq<Rule>, i: nat)
    requires i < |rules|
    ensures var k := i + WrapCount(rules[..i]);
      k + |ExpandRule(rules[i])| <= |Expand(rules)| &&
      Expand(rules)[k..k + |ExpandRule(rules[i])|] == ExpandRule(rules[i])
  {
    var pre, post := rules[..i], rules[i + 1..];
    assert rules == pre + [rules[i]] + post;
    ExpandAppend(pre + [rules[i]], post);
    ExpandAppend(pre, [rules[i]]);
    assert Expand([rules[i]]) == ExpandRule(rules[i]) by {
      assert [rules[i]][..0] == [];
    }
    ExpandLength(pre);
    var k := i + WrapCount(pre);
    var mid := ExpandRule(rules[i]);
    assert Expand(rules) == Expand(pre) + mid + Expand(post);
    assert Expand(rules)[k..k + |mid|] == mid;
  }

  /** Whether a rule's half-open band `[start, end)`, read cyclically, contains time `t`. */
  predicate InRule(r: Rule, t: Time) {
    if r.startTime <= r.endTime then r.startTime <= t < r.endTime
    else t >= r.startTime || t < r.endTime
  }

  /**
   * For every second of the day but the last, a rule contains `t` exactly
   * when one of its expanded bands does, under the band test that
   * `prices_for_time_period` applies to a zero-length call at `t`.
   */
  lemma ExpandRuleCovers(r: Rule, t: Time)
    requires t < EndOfDay
    ensures InRule(r, t) <==> exists k :: 0 <= k < |ExpandRule(r)| && Overlaps(ExpandRule(r)[k], t, t)
  {
    var bs := ExpandRule(r);
    if InRule(r, t) {
      if Wraps(r) && t < r.endTime {
        assert Overlaps(bs[1], t, t);
      } else {
        assert Overlaps(bs[0], t, t);
      }
    }
  }

  /**
   * The head band of a wrapping rule ends at 23:59:59 and bands are
   * half-open, so the last second of the day is in the rule but in none of
   * its bands.
   */
  lemma LastSecondUncovered(r: Rule)
    requires Wraps(r)
    ensures InRule(r, EndOfDay)
    ensures forall k :: 0 <= k < |ExpandRule(r)| ==> !Overlaps(ExpandRule(r)[k], EndOfDay, EndOfDay)
  {
  }

  // ---------------------------------------------------------------------------
  // Per-band entries

  /** Number of bands that share time with the call window. */
  function OverlapCount(bands: seq<Band>, caseStart: Time, caseEnd: Time): nat
    decreases |bands|
  {
    if bands == [] then 0
    else OverlapCount(bands[..|bands| - 1], caseStart, caseEnd)
         + (if Overlaps(bands[|bands| - 1], caseStart, caseEnd) then 1 else 0)
  }

  /** At most one entry per band: one for each overlapping band and no other. */
  lemma {:induction false} EntriesLength(bands: seq<Band>, caseStart: Time, caseEnd: Time)
    ensures |Entries(bands, caseStart, caseEnd)| == OverlapCount(bands, caseStart, caseEnd) <= |bands|
    decreases |bands|
  {
    if bands != [] {
      EntriesLength(bands[..|bands| - 1], caseStart, caseEnd);
    }
  }

  /** The entries of a prefix of the bands are a prefix of the entries. */
  lemma {:induction false} EntriesPrefix(bands: seq<Band>, i: nat, caseStart: Time, caseEnd: Time)
    requires i <= |bands|
    ensures var pre := Entries(bands[..i], caseStart, caseEnd);
      |pre| <= |Entries(bands, caseStart, caseEnd)| &&
      Entries(bands, caseStart, caseEnd)[..|pre|] == pre
    decreases |bands|
  {
    if i == |bands| {
      assert bands[..i] == bands;
    } else {
      var init := bands[..|bands| - 1];
      assert bands[..i] == init[..i];
      EntriesPrefix(init, i, caseStart, caseEnd);
    }
  }

  /**
   * Entries appear in band order: band `j`, when it overlaps the call,
   * contributes the entry right after those of the bands before it.
   */
  lemma EntriesAt(bands: seq<Band>, j: nat, caseStart: Time, caseEnd: Time)
    requires j < |bands| && Overlaps(bands[j], caseStart, caseEnd)
    ensures var k := |Entries(bands[..j], caseStart, caseEnd)|;
      k < |Entries(bands, caseStart, caseEnd)| &&
      Entries(bands, caseStart, caseEnd)[k] == EntryFor(bands[j], caseStart, caseEnd)
  {
    EntriesPrefix(bands, j + 1, caseStart, caseEnd);
    assert bands[..j + 1][..j] == bands[..j];
  }

  /** Every entry comes from a band that overlaps the call. */
  lemma {:induction false} EntriesFrom(bands: seq<Band>, k: nat, caseStart: Time, caseEnd: Time)
    requires k < |Entries(bands, caseStart, caseEnd)|
    ensures exists j ::
              0 <= j < |bands| && Overlaps(bands[j], caseStart, caseEnd) &&
              Entries(bands, caseStart, caseEnd)[k] == EntryFor(bands[j], caseStart, caseEnd)
    decreases |bands|
  {
    var init := bands[..|bands| - 1];
    var pre := Entries(init, caseStart, caseEnd);
    if k < |pre| {
      EntriesFrom(init, k, caseStart, caseEnd);
      var j :| 0 <= j < |init| && Overlaps(init[j], caseStart, caseEnd) &&
        pre[k] == EntryFor(init[j], caseStart, caseEnd);
      assert bands[j] == init[j];
    } else {
      assert Overlaps(bands[|bands| - 1], caseStart, caseEnd);
    }
  }

  /**
   * For a call that does not pass midnight and a band that does not wrap,
   * the priced interval is the call clipped to the band, and its whole
   * minutes are at most the call's.
   */
  lemma EntryBounds(b: Band, caseStart: Time, caseEnd: Time)
    requires caseStart <= caseEnd && b.start <= b.end && Overlaps(b, caseStart, caseEnd)
    ensures var lo, hi := Max(caseStart, b.start), Min(caseEnd, b.end);
      caseStart <= lo <= hi <= caseEnd && b.start <= lo <= hi <= b.end &&
      PricedSeconds(b, caseStart, caseEnd) == hi - lo
    ensures EntryFor(b, caseStart, caseEnd).minutes <= (caseEnd - caseStart) / 60
    ensures b.minuteCallCharge >= 0 ==> EntryFor(b, caseStart, caseEnd).callCharge >= 0
  {
    var lo, hi := Max(caseStart, b.start), Min(caseEnd, b.end);
    assert 0 <= hi - lo < SecondsPerDay;
    assert PricedSeconds(b, caseStart, caseEnd) == hi - lo;
    var e := EntryFor(b, caseStart, caseEnd);
    assert e.minutes * 60 <= caseEnd - caseStart;
    DivBound(e.minutes, caseEnd - caseStart);
  }

  lemma DivBound(m: nat, d: nat)
    requires m * 60 <= d
    ensures m <= d / 60
  {
  }

  /** Every entry's minutes lie in `[0, (case_end - case_start) // 60]` when the call does not pass midnight. */
  lemma EntriesMinutesBounded(table: seq<Rule>, caseStart: Time, caseEnd: Time, k: nat)
    requires caseStart <= caseEnd
    requires k < |Entries(Expand(table), caseStart, caseEnd)|
    ensures Entries(Expand(table), caseStart, caseEnd)[k].minutes <= (caseEnd - caseStart) / 60
  {
    var bands := Expand(table);
    EntriesFrom(bands, k, caseStart, caseEnd);
    var j :| 0 <= j < |bands| && Overlaps(bands[j], caseStart, caseEnd) &&
      Entries(bands, caseStart, caseEnd)[k] == EntryFor(bands[j], caseStart, caseEnd);
    ExpandWellFormed(table);
    EntryBounds(bands[j], caseStart, caseEnd);
  }

  // ---------------------------------------------------------------------------
  // Price

  lemma {:induction false} SumAppend(a: seq<PriceEntry>, b: seq<PriceEntry>)
    ensures SumCharges(a + b) == SumCharges(a) + SumCharges(b)
    decreases |b|
  {
    if b == [] {
      assert a + b == a;
    } else {
      var b' := b[..|b| - 1];
      assert (a + b)[..|a + b| - 1] == a + b';
      SumAppend(a, b');
    }
  }

  /**
   * Exactly one standing charge: entries after the first add their minute
   * charges and nothing else.
   */
  lemma OneStandingCharge(a: seq<PriceEntry>, b: seq<PriceEntry>)
    requires a != []
    ensures PriceOf(a + b) == PriceOf(a) + SumCharges(b)
  {
    SumAppend(a, b);
  }

  /** A single entry costs its minute charge plus its standing charge. */
  lemma SingleEntryPrice(e: PriceEntry)
    ensures PriceOf([e]) == e.callCharge + e.standingCharge
  {
    assert [e][..0] == [];
    assert SumCharges([e]) == SumCharges([e][..0]) + e.callCharge;
  }

  predicate NonNegativeCharges(table: seq<Rule>) {
    forall i :: 0 <= i < |table| ==> table[i].standingCharge >= 0 && table[i].minuteCallCharge >= 0
  }

  lemma {:induction false} ExpandNonNegative(table: seq<Rule>)
    requires NonNegativeCharges(table)
    ensures forall k :: 0 <= k < |Expand(table)| ==>
      Expand(table)[k].standingCharge >= 0 && Expand(table)[k].minuteCallCharge >= 0
    decreases |table|
  {
    if table != [] {
      var init := table[..|table| - 1];
      ExpandNonNegative(init);
      var tail := ExpandRule(table[|table| - 1]);
      forall k | 0 <= k < |Expand(table)|
        ensures Expand(table)[k].standingCharge >= 0 && Expand(table)[k].minuteCallCharge >= 0
      {
        if k >= |Expand(init)| {
          assert Expand(table)[k] == tail[k - |Expand(init)|];
        }
      }
    }
  }

  lemma {:induction false} SumNonNegative(entries: seq<PriceEntry>)
    requires forall k :: 0 <= k < |entries| ==> entries[k].callCharge >= 0
    ensures SumCharges(entries) >= 0
    decreases |entries|
  {
    if entries != [] {
      SumNonNegative(entries[..|entries| - 1]);
    }
  }

  /** With non-negative tariffs no call costs less than nothing. */
  lemma PriceNonNegative(table: seq<Rule>, startTimestamp: int, endTimestamp: int)
    requires NonNegativeCharges(table)
    ensures PriceSpec(table, startTimestamp, endTimestamp) >= 0
  {
    var bands := Expand(table);
    var cs, ce := TimeOf(startTimestamp), TimeOf(endTimestamp);
    var entries := Entries(bands, cs, ce);
    ExpandNonNegative(table);
    forall k | 0 <= k < |entries|
      ensures entries[k].callCharge >= 0 && entries[k].standingCharge >= 0
    {
      EntriesFrom(bands, k, cs, ce);
    }
    SumNonNegative(entries);
  }

  /** With no entries the price is zero. */
  lemma NoEntriesFree(table: seq<Rule>, startTimestamp: int, endTimestamp: int)
    requires Entries(Expand(table), TimeOf(startTimestamp), TimeOf(endTimestamp)) == []
    ensures PriceSpec(table, startTimestamp, endTimestamp) == 0
  {
  }

  /** An empty rule table prices every call at zero. */
  lemma EmptyTableFree(startTimestamp: int, endTimestamp: int)
    ensures PriceSpec([], startTimestamp, endTimestamp) == 0
  {
  }

  lemma ShiftTimeOf(t: int, days: int)
    ensures TimeOf(t + days * SecondsPerDay) == TimeOf(t)
  {
    var q := t / SecondsPerDay;
    assert t == q * SecondsPerDay + TimeOf(t);
    assert t + days * SecondsPerDay == (q + days) * SecondsPerDay + TimeOf(t);
  }

  /** Only the time of day of each end counts: moving either end by whole days leaves the price unchanged. */
  lemma PriceIgnoresDates(table: seq<Rule>, startTimestamp: int, endTimestamp: int, startDays: int, endDays: int)
    ensures PriceSpec(table, startTimestamp + startDays * SecondsPerDay, endTimestamp + endDays * SecondsPerDay)
         == PriceSpec(table, startTimestamp, endTimestamp)
  {
    ShiftTimeOf(startTimestamp, startDays);
    ShiftTimeOf(endTimestamp, endDays);
  }

  // ---------------------------------------------------------------------------
  // The two-rule table of the source's tests

  /** 06:00-22:00 at 0.36 + 0.09/min, and 22:00-06:00 at 0.36 + 0.00/min. */
  const StandardTable := [Rule(1, 21600, 79200, 36, 9), Rule(2, 79200, 21600, 36, 0)]

  lemma StandardBands()
    ensures Expand(StandardTable) ==
      [Band(21600, 79200, 1, 36, 9), Band(79200, 86399, 2, 36, 0), Band(0, 21600, 2, 36, 0)]
  {
    assert StandardTable[..1] == [Rule(1, 21600, 79200, 36, 9)];
    assert StandardTable[..1][..0] == [];
  }

  lemma EntriesOfStandard(caseStart: Time, caseEnd: Time)
    ensures Entries(Expand(StandardTable), caseStart, caseEnd) ==
      Entries([Band(21600, 79200, 1, 36, 9), Band(79200, 86399, 2, 36, 0), Band(0, 21600, 2, 36, 0)], caseStart, caseEnd)
  {
    StandardBands();
  }

  /**
   * 2016-02-29 21:57:13 to 22:17:53: two minutes of day rate before 22:00,
   * seventeen free minutes after, one standing charge: 0.54.
   */
  lemma ExamplePrice()
    ensures PriceSpec(StandardTable, 1456783033, 1456784273) == 54
  {
    var bands := [Band(21600, 79200, 1, 36, 9), Band(79200, 86399, 2, 36, 0), Band(0, 21600, 2, 36, 0)];
    var cs, ce := TimeOf(1456783033), TimeOf(1456784273);
    assert cs == 79033 && ce == 80273;
    EntriesOfStandard(cs, ce);
    assert bands[..2][..1] == bands[..1];
    assert bands[..1][..0] == [];
    var e0 := PriceEntry(1, 2, 18, 36);
    var e1 := PriceEntry(2, 17, 0, 36);
    assert Entries(bands[..1], cs, ce) == [e0];
    assert Entries(bands[..2], cs, ce) == [e0, e1];
    assert Entries(bands, cs, ce) == [e0, e1];
    assert [e0, e1][..1] == [e0];
    assert [e0][..0] == [];
    assert SumCharges([e0]) == 18;
    assert SumCharges([e0, e1]) == 18;
  }

  /** A day-rate call from 12:00 to 14:00: 120 minutes at 0.09 plus 0.36, i.e. 11.16. */
  lemma DaytimePrice(day: int)
    ensures PriceSpec(StandardTable, day * SecondsPerDay + 43200, day * SecondsPerDay + 50400) == 1116
  {
    var bands := [Band(21600, 79200, 1, 36, 9), Band(79200, 86399, 2, 36, 0), Band(0, 21600, 2, 36, 0)];
    ShiftTimeOf(43200, day);
    ShiftTimeOf(50400, day);
    var cs, ce := 43200, 50400;
    EntriesOfStandard(cs, ce);
    assert bands[..2][..1] == bands[..1];
    assert bands[..1][..0] == [];
    var e0 := PriceEntry(1, 120, 1080, 36);
    assert Entries(bands[..1], cs, ce) == [e0];
    assert Entries(bands, cs, ce) == [e0];
    SingleEntryPrice(e0);
  }

  /**
   * A call from 23:00 to 00:30 the next day: its start time of day is after
   * its end time of day, no band passes the overlap test, and it is priced
   * at zero.
   */
  lemma MidnightCrossingUnpriced(day: int)
    ensures PriceSpec(StandardTable, day * SecondsPerDay + 82800, (day + 1) * SecondsPerDay + 1800) == 0
  {
    var bands := [Band(21600, 79200, 1, 36, 9), Band(79200, 86399, 2, 36, 0), Band(0, 21600, 2, 36, 0)];
    ShiftTimeOf(82800, day);
    ShiftTimeOf(1800, day + 1);
    var cs, ce := 82800, 1800;
    EntriesOfStandard(cs, ce);
    assert bands[..2][..1] == bands[..1];
    assert bands[..1][..0] == [];
    assert Entries(bands[..1], cs, ce) == [];
    assert Entries(bands[..2], cs, ce) == [];
    assert Entries(bands, cs, ce) == [];
  }

  /**
   * A call from 21:00 to 07:00 the next day: its start time of day is after
   * its end time of day, yet the 06:00-22:00 band passes the overlap test,
   * and the clipped window `[21:00, 07:00]` is measured modulo one day as 600
   * minutes at 0.09. The ten night-rate hours are billed at the day rate:
   * 54.00 plus 0.36.
   */
  lemma MidnightCrossingOvercharged(day: int)
    ensures PriceSpec(StandardTable, day * SecondsPerDay + 75600, (day + 1) * SecondsPerDay + 25200) == 5436
  {
    var bands := [Band(21600, 79200, 1, 36, 9), Band(79200, 86399, 2, 36, 0), Band(0, 21600, 2, 36, 0)];
    ShiftTimeOf(75600, day);
    ShiftTimeOf(25200, day + 1);
    var cs, ce := 75600, 25200;
    EntriesOfStandard(cs, ce);
    assert bands[..2][..1] == bands[..1];
    assert bands[..1][..0] == [];
    var e0 := PriceEntry(1, 600, 5400, 36);
    assert PricedSeconds(bands[0], cs, ce) == 36000;
    assert Entries(bands[..1], cs, ce) == [e0];
    assert Entries(bands[..2], cs, ce) == [e0];
    assert Entries(bands, cs, ce) == [e0];
    SingleEntryPrice(e0);
  }
}
