/** The trip record: one row of the taxi trip table, with its nineteen columns. */
module Trips {
  import opened Calendar

  /** A floating-point column value (distances, coordinates, amounts). The
      transformation never computes on these; it only copies and compares them. */
  type Float(==)

  /** One row of the trip table. The two timestamp columns have type `T`: text
      as read from the source, then parsed timestamps. */
  datatype Record<T> = Record(
    vendorID: int,
    tpepPickupDatetime: T,
    tpepDropoffDatetime: T,
    passengerCount: int,
    tripDistance: Float,
    ratecodeID: int,
    storeAndFwdFlag: string,
    pickupLongitude: Float,
    pickupLatitude: Float,
    dropoffLongitude: Float,
    dropoffLatitude: Float,
    paymentType: int,
    fareAmount: Float,
    extra: Float,
    mtaTax: Float,
    tipAmount: Float,
    tollsAmount: Float,
    improvementSurcharge: Float,
    totalAmount: Float)

  /** A row as it arrives, with its timestamp columns still text. */
  type RawRecord = Record<string>

  /** A row whose timestamp columns have been parsed. */
  type Row = Record<Timestamp>

  /** A row of the base table: a deduplicated row with its `trip_id` column. */
  datatype Trip = Trip(tripId: int, row: Row)

  /** The same row with its timestamp columns replaced by parsed values. */
  function WithTimestamps(r: RawRecord, pickup: Timestamp, dropoff: Timestamp): (w: Row)
    ensures w.tpepPickupDatetime == pickup && w.tpepDropoffDatetime == dropoff
    ensures w.vendorID == r.vendorID && w.passengerCount == r.passengerCount
    ensures w.tripDistance == r.tripDistance && w.ratecodeID == r.ratecodeID
    ensures w.storeAndFwdFlag == r.storeAndFwdFlag && w.paymentType == r.paymentType
    ensures w.pickupLongitude == r.pickupLongitude && w.pickupLatitude == r.pickupLatitude
    ensures w.dropoffLongitude == r.dropoffLongitude && w.dropoffLatitude == r.dropoffLatitude
    ensures w.fareAmount == r.fareAmount && w.extra == r.extra && w.mtaTax == r.mtaTax
    ensures w.tipAmount == r.tipAmount && w.tollsAmount == r.tollsAmount
    ensures w.improvementSurcharge == r.improvementSurcharge && w.totalAmount == r.totalAmount
  {
    Record(r.vendorID, pickup, dropoff, r.passengerCount, r.tripDistance, r.ratecodeID,
           r.storeAndFwdFlag, r.pickupLongitude, r.pickupLatitude, r.dropoffLongitude,
           r.dropoffLatitude, r.paymentType, r.fareAmount, r.extra, r.mtaTax, r.tipAmount,
           r.tollsAmount, r.improvementSurcharge, r.totalAmount)
  }
}
