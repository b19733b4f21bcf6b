/** The fact table: the base table merged with the seven dimension tables on
    `trip_id = <dimension>_id`, then cut down to the fact columns. */
module Facts {
  import opened Trips
  import opened Dimensions
  import opened Join

  datatype FactRow = FactRow(
    tripId: int,
    vendorID: int,
    datetimeId: int,
    passengerCountId: int,
    tripDistanceId: int,
    rateCodeId: int,
    storeAndFwdFlag: string,
    pickupLocationId: int,
    dropoffLocationId: int,
    paymentTypeId: int,
    fareAmount: Float,
    extra: Float,
    mtaTax: Float,
    tipAmount: Float,
    tollsAmount: Float,
    improvementSurcharge: Float,
    totalAmount: Float)

  // The merged rows after each of the seven merges, in the order of the chain.
  type Merged1 = (Trip, PassengerCountRow)
  type Merged2 = (Merged1, TripDistanceRow)
  type Merged3 = (Merged2, RateCodeRow)
  type Merged4 = (Merged3, PickupLocationRow)
  type Merged5 = (Merged4, DropoffLocationRow)
  type Merged6 = (Merged5, DatetimeRow)
  type Merged7 = (Merged6, PaymentTypeRow)

  // The `trip_id` column of the base table and of each merged table.
  function TripKey(t: Trip): int { t.tripId }
  function TripKey1(m: Merged1): int { m.0.tripId }
  function TripKey2(m: Merged2): int { TripKey1(m.0) }
  function TripKey3(m: Merged3): int { TripKey2(m.0) }
  function TripKey4(m: Merged4): int { TripKey3(m.0) }
  function TripKey5(m: Merged5): int { TripKey4(m.0) }
  function TripKey6(m: Merged6): int { TripKey5(m.0) }

  // The surrogate-id column of each dimension table.
  function PassengerCountKey(d: PassengerCountRow): int { d.passengerCountId }
  function TripDistanceKey(d: TripDistanceRow): int { d.tripDistanceId }
  function RateCodeKey(d: RateCodeRow): int { d.rateCodeId }
  function PickupLocationKey(d: PickupLocationRow): int { d.pickupLocationId }
  function DropoffLocationKey(d: DropoffLocationRow): int { d.dropoffLocationId }
  function DatetimeKey(d: DatetimeRow): int { d.datetimeId }
  function PaymentTypeKey(d: PaymentTypeRow): int { d.paymentTypeId }

  /** The column selection that ends the chain. */
  function Project(m: Merged7): FactRow {
    match m
    case (((((((t, pc), td), rc), pl), dl), dt), pt) =>
      FactRow(t.tripId, t.row.vendorID, dt.datetimeId, pc.passengerCountId, td.tripDistanceId,
              rc.rateCodeId, t.row.storeAndFwdFlag, pl.pickupLocationId, dl.dropoffLocationId,
              pt.paymentTypeId, t.row.fareAmount, t.row.extra, t.row.mtaTax, t.row.tipAmount,
              t.row.tollsAmount, t.row.improvementSurcharge, t.row.totalAmount)
  }

  /** The merge chain and the final column selection. */
  function FactTable(base: seq<Trip>, pc: seq<PassengerCountRow>, td: seq<TripDistanceRow>,
                     rc: seq<RateCodeRow>, pl: seq<PickupLocationRow>, dl: seq<DropoffLocationRow>,
                     dt: seq<DatetimeRow>, pt: seq<PaymentTypeRow>): seq<FactRow>
  {
    var m1 := InnerJoin(base, pc, TripKey, PassengerCountKey);
    var m2 := InnerJoin(m1, td, TripKey1, TripDistanceKey);
    var m3 := InnerJoin(m2, rc, TripKey2, RateCodeKey);
    var m4 := InnerJoin(m3, pl, TripKey3, PickupLocationKey);
    var m5 := InnerJoin(m4, dl, TripKey4, DropoffLocationKey);
    var m6 := InnerJoin(m5, dt, TripKey5, DatetimeKey);
    var m7 := InnerJoin(m6, pt, TripKey6, PaymentTypeKey);
    seq(|m7|, i requires 0 <= i < |m7| => Project(m7[i]))
  }

  /** Fact row `i` of a table of `N` trips: trip id `i`, every dimension id `i`,
      and the vendor, flag and monetary columns of trip `i` unchanged. */
  predicate IsFactRowFor(f: FactRow, i: int, r: Row) {
    f == FactRow(i, r.vendorID, i, i, i, i, r.storeAndFwdFlag, i, i, i,
                 r.fareAmount, r.extra, r.mtaTax, r.tipAmount, r.tollsAmount,
                 r.improvementSurcharge, r.totalAmount)
  }


  /** With every key column equal to 0 .. N - 1, the seven inner merges neither
      drop nor duplicate a row: merged row `i` is made of row `i` of every table. */
  lemma MergeChainPositional(base: seq<Trip>, pc: seq<PassengerCountRow>,
                             td: seq<TripDistanceRow>, rc: seq<RateCodeRow>, pl: seq<PickupLocationRow>,
                             dl: seq<DropoffLocationRow>, dt: seq<DatetimeRow>, pt: seq<PaymentTypeRow>)
    requires |pc| == |td| == |rc| == |pl| == |dl| == |dt| == |pt| == |base|
    requires KeysArePositions(base, TripKey) && KeysArePositions(pc, PassengerCountKey)
    requires KeysArePositions(td, TripDistanceKey) && KeysArePositions(rc, RateCodeKey)
    requires KeysArePositions(pl, PickupLocationKey) && KeysArePositions(dl, DropoffLocationKey)
    requires KeysArePositions(dt, DatetimeKey) && KeysArePositions(pt, PaymentTypeKey)
    ensures |FactTable(base, pc, td, rc, pl, dl, dt, pt)| == |base|
    ensures forall i :: 0 <= i < |base| ==>
              FactTable(base, pc, td, rc, pl, dl, dt, pt)[i]
                == Project((((((((base[i], pc[i]), td[i]), rc[i]), pl[i]), dl[i]), dt[i]), pt[i]))
  {
    var m1 := Zip(base, pc);
    InnerJoinPositional(base, pc, TripKey, PassengerCountKey);
    assert KeysArePositions(m1, TripKey1);
    var m2 := Zip(m1, td);
    InnerJoinPositional(m1, td, TripKey1, TripDistanceKey);
    assert KeysArePositions(m2, TripKey2);
    var m3 := Zip(m2, rc);
    InnerJoinPositional(m2, rc, TripKey2, RateCodeKey);
    assert KeysArePositions(m3, TripKey3);
    var m4 := Zip(m3, pl);
    InnerJoinPositional(m3, pl, TripKey3, PickupLocationKey);
    assert KeysArePositions(m4, TripKey4);
    var m5 := Zip(m4, dl);
    InnerJoinPositional(m4, dl, TripKey4, DropoffLocationKey);
    assert KeysArePositions(m5, TripKey5);
    var m6 := Zip(m5, dt);
    InnerJoinPositional(m5, dt, TripKey5, DatetimeKey);
    assert KeysArePositions(m6, TripKey6);
    InnerJoinPositional(m6, pt, TripKey6, PaymentTypeKey);
  }

  /** The fact table of N deduplicated trips has N rows; row `i` carries trip id
      `i`, every dimension id equal to `i`, and the vendor, flag and monetary
      columns of trip `i` unchanged. */
  lemma FactTableAligned(df: seq<Row>, base: seq<Trip>, pc: seq<PassengerCountRow>,
                         td: seq<TripDistanceRow>, rc: seq<RateCodeRow>, pl: seq<PickupLocationRow>,
                         dl: seq<DropoffLocationRow>, dt: seq<DatetimeRow>, pt: seq<PaymentTypeRow>)
    requires |base| == |df| && forall i :: 0 <= i < |df| ==> base[i] == Trip(i, df[i])
    requires IsPassengerCountDim(pc, df) && IsTripDistanceDim(td, df) && IsRateCodeDim(rc, df)
    requires IsPickupLocationDim(pl, df) && IsDropoffLocationDim(dl, df)
    requires IsDatetimeDim(dt, df) && IsPaymentTypeDim(pt, df)
    ensures |FactTable(base, pc, td, rc, pl, dl, dt, pt)| == |df|
    ensures forall i :: 0 <= i < |df| ==> IsFactRowFor(FactTable(base, pc, td, rc, pl, dl, dt, pt)[i], i, df[i])
  {
    assert KeysArePositions(base, TripKey);
    assert KeysArePositions(pc, PassengerCountKey);
    assert KeysArePositions(td, TripDistanceKey);
    assert KeysArePositions(rc, RateCodeKey);
    assert KeysArePositions(pl, PickupLocationKey);
    assert KeysArePositions(dl, DropoffLocationKey);
    assert KeysArePositions(dt, DatetimeKey);
    assert KeysArePositions(pt, PaymentTypeKey);
    MergeChainPositional(base, pc, td, rc, pl, dl, dt, pt);
  }
}
