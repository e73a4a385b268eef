/**
 * The call aggregator (calls/core/models/call.py).
 *
 * Call detail records arrive one at a time; each one creates the Call whose
 * id is the record's `call_id`, or fills one slot of it. The database is a
 * `CallStore` holding a map from call id to `Call` object. The framework
 * hooks become explicit calls: `CallStore.Update` is what the post-save hook
 * of a detail runs, and `Call.CalculatePrice` is what the pre-save hook of a
 * Call runs, so `Update` calls it on every Call it saves. The rule table that
 * the source reads from the database is passed in.
 */
module Calls {

  import opened PricingRule
  import opened Helpers

  datatype Option<T> = None | Some(value: T)

  /** `CallDetail.START` / `CallDetail.END`. */
  datatype DetailType = Start | End

  /** A call detail record: its own id, its type, its UTC timestamp in seconds and the call it belongs to. */
  datatype CallDetail = CallDetail(
    id: nat,
    kind: DetailType,
    timestamp: int,
    callId: nat,
    source: Option<string>,
    destination: Option<string>)

  /** The two optional foreign keys of a Call. */
  datatype CallSlots = CallSlots(start: Option<CallDetail>, end: Option<CallDetail>) {
    predicate Complete() {
      start.Some? && end.Some?
    }
  }

  /**
   * The slots of call `d.callId` after `update(d)`; `prev` is None when the
   * call did not exist. Only the slot named by the record's type is written.
   */
  function Receive(prev: Option<CallSlots>, d: CallDetail): (s: CallSlots)
    ensures d.kind == Start ==> s.start == Some(d)
    ensures d.kind == End ==> s.end == Some(d)
    ensures prev.None? ==> (if d.kind == Start then s.end else s.start) == None
    ensures prev.Some? && d.kind == Start ==> s.end == prev.value.end
    ensures prev.Some? && d.kind == End ==> s.start == prev.value.start
  {
    match prev
    case None =>
      CallSlots(if d.kind == Start then Some(d) else None, if d.kind == End then Some(d) else None)
    case Some(slots) =>
      if d.kind == Start then slots.(start := Some(d)) else slots.(end := Some(d))
  }

  /** The price `calculate_price` stores for a Call with these slots. */
  function SlotsPrice(table: seq<Rule>, s: CallSlots): int {
    if !s.Complete() then 0 else PriceSpec(table, s.start.value.timestamp, s.end.value.timestamp)
  }

  /** Receiving the START record and the END record of a call in either order gives the same slots. */
  lemma ReceiveOrderIndependent(prev: Option<CallSlots>, start: CallDetail, end: CallDetail)
    requires start.kind == Start && end.kind == End
    ensures Receive(Some(Receive(prev, start)), end) == Receive(Some(Receive(prev, end)), start)
    ensures prev.None? ==> Receive(Some(Receive(prev, start)), end) == CallSlots(Some(start), Some(end))
  {
  }

  class Call {
    const id: nat
    var detailStart: Option<CallDetail>
    var detailEnd: Option<CallDetail>
    /** Nullable in the database; set by every save. */
    var price: Option<int>

    constructor (id: nat, detailStart: Option<CallDetail>, detailEnd: Option<CallDetail>)
      ensures this.id == id && this.detailStart == detailStart && this.detailEnd == detailEnd
      ensures price == None
    {
      this.id := id;
      this.detailStart := detailStart;
      this.detailEnd := detailEnd;
      price := None;
    }

    function Slots(): CallSlots
      reads this
    {
      CallSlots(detailStart, detailEnd)
    }

    /** Whether either foreign key points at the detail record `detailId`. */
    predicate References(detailId: nat)
      reads this
    {
      (detailStart.Some? && detailStart.value.id == detailId) ||
      (detailEnd.Some? && detailEnd.value.id == detailId)
    }

    /**
     * The `duration` property: zero while a slot is empty, otherwise the time
     * from the start record to the end record in normalised hours, minutes
     * and seconds.
     */
    function Duration(): (d: Hms)
      reads this
      ensures !Slots().Complete() ==> d == ZeroHms
      ensures Slots().Complete() ==>
        TotalSeconds(d) == detailEnd.value.timestamp - detailStart.value.timestamp && Normalised(d)
      ensures Slots().Complete() && detailStart.value.timestamp <= detailEnd.value.timestamp ==> d.hours >= 0
    {
      if !(detailStart.Some? && detailEnd.Some?) then ZeroHms
      else TimeBetween(detailStart.value.timestamp, detailEnd.value.timestamp)
    }

    /** `calculate_price`: zero while a slot is empty, otherwise the tariff price of the two timestamps. */
    method CalculatePrice(table: seq<Rule>)
      modifies this`price
      ensures !Slots().Complete() ==> price == Some(0)
      ensures Slots().Complete() ==>
        price == Some(PriceSpec(table, detailStart.value.timestamp, detailEnd.value.timestamp))
      ensures price == Some(SlotsPrice(table, Slots()))
    {
      if !(detailStart.Some? && detailEnd.Some?) {
        price := Some(0);
        return;
      }
      var p := Price(table, detailStart.value.timestamp, detailEnd.value.timestamp);
      price := Some(p);
    }
  }

  /** The table of Calls, keyed by id. */
  class CallStore {
    var calls: map<nat, Call>

    /** Every Call is stored under its own id and has been saved, so its price is set. */
    ghost predicate Valid()
      reads this, calls.Values
    {
      forall k :: k in calls ==> calls[k].id == k && calls[k].price.Some?
    }

    constructor ()
      ensures Valid() && calls == map[]
    {
      calls := map[];
    }

    /**
     * `Call.update(call_detail)`: create the Call `d.callId` with the slot of
     * `d`'s type filled, or overwrite that slot of the existing Call, then
     * save it (which reprices it). No other Call changes.
     */
    method Update(d: CallDetail, table: seq<Rule>)
      requires Valid()
      modifies this, calls.Values
      ensures Valid()
      ensures calls.Keys == old(calls.Keys) + {d.callId}
      ensures forall k :: k in calls && calls[k].id == d.callId ==> k == d.callId
      ensures d.callId !in old(calls) ==> fresh(calls[d.callId])
      ensures d.callId in old(calls) ==> calls[d.callId] == old(calls[d.callId])
      ensures calls[d.callId].Slots() ==
        Receive(if d.callId in old(calls) then Some(old(calls[d.callId].Slots())) else None, d)
      ensures calls[d.callId].price == Some(SlotsPrice(table, calls[d.callId].Slots()))
      ensures forall k :: k in old(calls) && k != d.callId ==>
        calls[k] == old(calls[k]) && calls[k].Slots() == old(calls[k].Slots()) &&
        calls[k].price == old(calls[k].price)
    {
      if d.callId !in calls {
        var call := new Call(d.callId,
          if d.kind == Start then Some(d) else None,
          if d.kind == End then Some(d) else None);
        call.CalculatePrice(table);  // pre-save hook of objects.create
        calls := calls[d.callId := call];
      } else {
        var call := calls[d.callId];
        if d.kind == Start {
          call.detailStart := Some(d);
        } else {
          call.detailEnd := Some(d);
        }
        call.CalculatePrice(table);  // pre-save hook of call.save()
      }
    }

    /**
     * Deleting the detail record `detailId`: both foreign keys cascade, so
     * every Call that references it in either slot is deleted with it.
     */
    method DeleteDetail(detailId: nat)
      requires Valid()
      modifies this
      ensures Valid()
      ensures forall k :: k in calls <==> k in old(calls) && !old(calls[k].References(detailId))
      ensures forall k :: k in calls ==> calls[k] == old(calls[k]) && !calls[k].References(detailId)
    {
      calls := map k | k in calls && !calls[k].References(detailId) :: calls[k];
    }
  }

  /**
   * A START record and an END record for the same call, received in either
   * order by an empty store, leave the same slots and the same price.
   */
  method ReceiveInEitherOrder(start: CallDetail, end: CallDetail, table: seq<Rule>)
    returns (slots1: CallSlots, price1: int, slots2: CallSlots, price2: int)
    requires start.kind == Start && end.kind == End && start.callId == end.callId
    ensures slots1 == slots2 == CallSlots(Some(start), Some(end))
    ensures price1 == price2 == PriceSpec(table, start.timestamp, end.timestamp)
  {
    var first := new CallStore();
    first.Update(start, table);
    first.Update(end, table);
    slots1 := first.calls[start.callId].Slots();
    price1 := first.calls[start.callId].price.value;

    var second := new CallStore();
    second.Update(end, table);
    second.Update(start, table);
    slots2 := second.calls[start.callId].Slots();
    price2 := second.calls[start.callId].price.value;
  }
}
