/** The seven dimension tables, each projected from the deduplicated trip table
    with a surrogate id equal to the row position, and the two code-to-label
    tables. */
module Dimensions {
  import opened Wrappers
  import opened Calendar
  import opened Trips

  // ---------------------------------------------------------------------------
  // Rows of the dimension tables, columns in their final order

  datatype DatetimeRow = DatetimeRow(
    datetimeId: int,
    tpepPickupDatetime: Timestamp,
    pickHour: int, pickDay: int, pickMonth: int, pickYear: int, pickWeekday: int,
    tpepDropoffDatetime: Timestamp,
    dropHour: int, dropDay: int, dropMonth: int, dropYear: int, dropWeekday: int)

  datatype PassengerCountRow = PassengerCountRow(passengerCountId: int, passengerCount: int)

  datatype TripDistanceRow = TripDistanceRow(tripDistanceId: int, tripDistance: Float)

  datatype RateCodeRow = RateCodeRow(rateCodeId: int, ratecodeID: int, rateCodeName: Option<string>)

  datatype PickupLocationRow = PickupLocationRow(pickupLocationId: int, pickupLatitude: Float, pickupLongitude: Float)

  datatype DropoffLocationRow = DropoffLocationRow(dropoffLocationId: int, dropoffLatitude: Float, dropoffLongitude: Float)

  datatype PaymentTypeRow = PaymentTypeRow(paymentTypeId: int, paymentType: int, paymentTypeName: Option<string>)

  // ---------------------------------------------------------------------------
  // Code labels

  const RateCodeType: map<int, string> := map[
    1 := "Standard rate",
    2 := "JFK",
    3 := "Newark",
    4 := "Nassau or Westchester",
    5 := "Negotiated fare",
    6 := "Group ride"]

  const PaymentTypeName: map<int, string> := map[
    1 := "Credit card",
    2 := "Cash",
    3 := "No charge",
    4 := "Dispute",
    5 := "Unknown",
    6 := "Voided trip"]

  /** `Series.map(dict)`: the label of a code, absent (NaN in the table) for a
      code the dictionary does not hold. */
  function Label(table: map<int, string>, code: int): (r: Option<string>)
    ensures r.Some? <==> code in table
    ensures r.Some? ==> r.value == table[code]
  {
    if code in table then Some(table[code]) else None
  }

  /** The rate-code label is the fixed name for codes 1 to 6 and absent for
      every other code; no code is an error. */
  lemma RateCodeLabels(code: int)
    ensures Label(RateCodeType, code).Some? <==> 1 <= code <= 6
    ensures code == 1 ==> Label(RateCodeType, code) == Some("Standard rate")
    ensures code == 2 ==> Label(RateCodeType, code) == Some("JFK")
    ensures code == 3 ==> Label(RateCodeType, code) == Some("Newark")
    ensures code == 4 ==> Label(RateCodeType, code) == Some("Nassau or Westchester")
    ensures code == 5 ==> Label(RateCodeType, code) == Some("Negotiated fare")
    ensures code == 6 ==> Label(RateCodeType, code) == Some("Group ride")
  {
  }

  /** The payment-type label is the fixed name for codes 1 to 6 and absent for
      every other code; no code is an error. */
  lemma PaymentTypeLabels(code: int)
    ensures Label(PaymentTypeName, code).Some? <==> 1 <= code <= 6
    ensures code == 1 ==> Label(PaymentTypeName, code) == Some("Credit card")
    ensures code == 2 ==> Label(PaymentTypeName, code) == Some("Cash")
    ensures code == 3 ==> Label(PaymentTypeName, code) == Some("No charge")
    ensures code == 4 ==> Label(PaymentTypeName, code) == Some("Dispute")
    ensures code == 5 ==> Label(PaymentTypeName, code) == Some("Unknown")
    ensures code == 6 ==> Label(PaymentTypeName, code) == Some("Voided trip")
  {
  }


  // ---------------------------------------------------------------------------
  // What each dimension table holds

  /** Row `i` of the datetime dimension: id `i`, the two timestamps of row `i`,
      and the fields read off each, the pickup fields from the pickup
      timestamp only and the dropoff fields from the dropoff timestamp only. */
  predicate IsDatetimeDim(dim: seq<DatetimeRow>, df: seq<Row>) {
    |dim| == |df| && forall i :: 0 <= i < |df| ==> dim[i] == DatetimeRowFor(i, df[i])
  }

  /** The datetime row with id `id` for the two timestamps of `r`. */
  function DatetimeRowFor(id: int, r: Row): DatetimeRow {
    var p := r.tpepPickupDatetime;
    var d := r.tpepDropoffDatetime;
    DatetimeRow(id, p, Hour(p), Day(p), Month(p), Year(p), Weekday(p),
                d, Hour(d), Day(d), Month(d), Year(d), Weekday(d))
  }

  predicate IsPassengerCountDim(dim: seq<PassengerCountRow>, df: seq<Row>) {
    |dim| == |df| &&
    forall i :: 0 <= i < |df| ==> dim[i] == PassengerCountRow(i, df[i].passengerCount)
  }

  predicate IsTripDistanceDim(dim: seq<TripDistanceRow>, df: seq<Row>) {
    |dim| == |df| &&
    forall i :: 0 <= i < |df| ==> dim[i] == TripDistanceRow(i, df[i].tripDistance)
  }

  predicate IsRateCodeDim(dim: seq<RateCodeRow>, df: seq<Row>) {
    |dim| == |df| &&
    forall i :: 0 <= i < |df| ==>
      dim[i] == RateCodeRow(i, df[i].ratecodeID, Label(RateCodeType, df[i].ratecodeID))
  }

  predicate IsPickupLocationDim(dim: seq<PickupLocationRow>, df: seq<Row>) {
    |dim| == |df| &&
    forall i :: 0 <= i < |df| ==>
      dim[i] == PickupLocationRow(i, df[i].pickupLatitude, df[i].pickupLongitude)
  }

  predicate IsDropoffLocationDim(dim: seq<DropoffLocationRow>, df: seq<Row>) {
    |dim| == |df| &&
    forall i :: 0 <= i < |df| ==>
      dim[i] == DropoffLocationRow(i, df[i].dropoffLatitude, df[i].dropoffLongitude)
  }

  predicate IsPaymentTypeDim(dim: seq<PaymentTypeRow>, df: seq<Row>) {
    |dim| == |df| &&
    forall i :: 0 <= i < |df| ==>
      dim[i] == PaymentTypeRow(i, df[i].paymentType, Label(PaymentTypeName, df[i].paymentType))
  }

  // ---------------------------------------------------------------------------
  // Building the tables column by column, row by row

  /** `df['trip_id'] = df.index` after `reset_index`: row `i` gets trip id `i`. */
  method AssignTripIds(df: seq<Row>) returns (base: seq<Trip>)
    ensures |base| == |df|
    ensures forall i :: 0 <= i < |df| ==> base[i].tripId == i && base[i].row == df[i]
  {
    base := [];
    for i := 0 to |df|
      invariant |base| == i
      invariant forall k :: 0 <= k < i ==> base[k] == Trip(k, df[k])
    {
      base := base + [Trip(i, df[i])];
    }
  }

  /** The datetime dimension: both timestamps, the hour, day, month, year and
      weekday of each, and `datetime_id` from the index. */
  method BuildDatetimeDim(df: seq<Row>) returns (dim: seq<DatetimeRow>)
    ensures IsDatetimeDim(dim, df)
  {
    dim := [];
    for i := 0 to |df|
      invariant |dim| == i
      invariant forall k :: 0 <= k < i ==> dim[k] == DatetimeRowFor(k, df[k])
    {
      var p := df[i].tpepPickupDatetime;
      var d := df[i].tpepDropoffDatetime;
      dim := dim + [DatetimeRow(i, p, Hour(p), Day(p), Month(p), Year(p), Weekday(p),
                                d, Hour(d), Day(d), Month(d), Year(d), Weekday(d))];
    }
  }

  method BuildPassengerCountDim(df: seq<Row>) returns (dim: seq<PassengerCountRow>)
    ensures IsPassengerCountDim(dim, df)
  {
    dim := [];
    for i := 0 to |df|
      invariant |dim| == i
      invariant forall k :: 0 <= k < i ==> dim[k] == PassengerCountRow(k, df[k].passengerCount)
    {
      dim := dim + [PassengerCountRow(i, df[i].passengerCount)];
    }
  }

  method BuildTripDistanceDim(df: seq<Row>) returns (dim: seq<TripDistanceRow>)
    ensures IsTripDistanceDim(dim, df)
  {
    dim := [];
    for i := 0 to |df|
      invariant |dim| == i
      invariant forall k :: 0 <= k < i ==> dim[k] == TripDistanceRow(k, df[k].tripDistance)
    {
      dim := dim + [TripDistanceRow(i, df[i].tripDistance)];
    }
  }

  /** The rate-code dimension, with `rate_code_name` looked up in RateCodeType. */
  method BuildRateCodeDim(df: seq<Row>) returns (dim: seq<RateCodeRow>)
    ensures IsRateCodeDim(dim, df)
  {
    dim := [];
    for i := 0 to |df|
      invariant |dim| == i
      invariant forall k :: 0 <= k < i ==>
        dim[k] == RateCodeRow(k, df[k].ratecodeID, Label(RateCodeType, df[k].ratecodeID))
    {
      dim := dim + [RateCodeRow(i, df[i].ratecodeID, Label(RateCodeType, df[i].ratecodeID))];
    }
  }

  method BuildPickupLocationDim(df: seq<Row>) returns (dim: seq<PickupLocationRow>)
    ensures IsPickupLocationDim(dim, df)
  {
    dim := [];
    for i := 0 to |df|
      invariant |dim| == i
      invariant forall k :: 0 <= k < i ==>
        dim[k] == PickupLocationRow(k, df[k].pickupLatitude, df[k].pickupLongitude)
    {
      dim := dim + [PickupLocationRow(i, df[i].pickupLatitude, df[i].pickupLongitude)];
    }
  }

  method BuildDropoffLocationDim(df: seq<Row>) returns (dim: seq<DropoffLocationRow>)
    ensures IsDropoffLocationDim(dim, df)
  {
    dim := [];
    for i := 0 to |df|
      invariant |dim| == i
      invariant forall k :: 0 <= k < i ==>
        dim[k] == DropoffLocationRow(k, df[k].dropoffLatitude, df[k].dropoffLongitude)
    {
      dim := dim + [DropoffLocationRow(i, df[i].dropoffLatitude, df[i].dropoffLongitude)];
    }
  }

  /** The payment-type dimension, with `payment_type_name` looked up in PaymentTypeName. */
  method BuildPaymentTypeDim(df: seq<Row>) returns (dim: seq<PaymentTypeRow>)
    ensures IsPaymentTypeDim(dim, df)
  {
    dim := [];
    for i := 0 to |df|
      invariant |dim| == i
      invariant forall k :: 0 <= k < i ==>
        dim[k] == PaymentTypeRow(k, df[k].paymentType, Label(PaymentTypeName, df[k].paymentType))
    {
      dim := dim + [PaymentTypeRow(i, df[i].paymentType, Label(PaymentTypeName, df[i].paymentType))];
    }
  }
}
