/** `transform_data`: the trip table reshaped into a star schema of one fact
    table and seven dimension tables. */
module Etl {
  import opened Wrappers
  import opened Calendar
  import opened Trips
  import opened Dedup
  import opened Dimensions
  import opened Facts

  const PickupColumn: string := "tpep_pickup_datetime"
  const DropoffColumn: string := "tpep_dropoff_datetime"

  /** The run aborts when a timestamp text cannot be parsed; the error names
      the column, the row and the text. */
  datatype TransformError = TypeCoercionError(column: string, row: nat, text: string)

  /** The eight tables `transform_data` returns. */
  datatype StarSchema = StarSchema(
    factTable: seq<FactRow>,
    datetimeDim: seq<DatetimeRow>,
    passengerCountDim: seq<PassengerCountRow>,
    tripDistanceDim: seq<TripDistanceRow>,
    rateCodeDim: seq<RateCodeRow>,
    pickupLocationDim: seq<PickupLocationRow>,
    dropoffLocationDim: seq<DropoffLocationRow>,
    paymentTypeDim: seq<PaymentTypeRow>)

  // ---------------------------------------------------------------------------
  // Timestamp coercion

  /** `pd.to_datetime` on one column, with `parse` standing for the library's
      text parser: every text parsed, or the position of the first text that
      cannot be. */
  function ParseColumn(texts: seq<string>, parse: string -> Option<Timestamp>): (r: Result<seq<Timestamp>, nat>)
    ensures r.Success? <==> forall i :: 0 <= i < |texts| ==> parse(texts[i]).Some?
    ensures r.Success? ==>
              |r.value| == |texts| &&
              forall i :: 0 <= i < |texts| ==> parse(texts[i]) == Some(r.value[i])
    ensures r.Failure? ==>
              r.error < |texts| && parse(texts[r.error]).None? &&
              forall j :: 0 <= j < r.error ==> parse(texts[j]).Some?
    decreases |texts|
  {
    if |texts| == 0 then Success([])
    else
      match parse(texts[0])
      case None => Failure(0)
      case Some(t) =>
        match ParseColumn(texts[1..], parse)
        case Success(ts) => Success([t] + ts)
        case Failure(k) => Failure(k + 1)
  }

  function PickupTexts(raw: seq<RawRecord>): (texts: seq<string>)
    ensures |texts| == |raw| && forall i :: 0 <= i < |raw| ==> texts[i] == raw[i].tpepPickupDatetime
  {
    seq(|raw|, i requires 0 <= i < |raw| => raw[i].tpepPickupDatetime)
  }

  function DropoffTexts(raw: seq<RawRecord>): (texts: seq<string>)
    ensures |texts| == |raw| && forall i :: 0 <= i < |raw| ==> texts[i] == raw[i].tpepDropoffDatetime
  {
    seq(|raw|, i requires 0 <= i < |raw| => raw[i].tpepDropoffDatetime)
  }

  /** Every timestamp text of `raw` parses. */
  predicate AllParse(raw: seq<RawRecord>, parse: string -> Option<Timestamp>) {
    forall i :: 0 <= i < |raw| ==>
      parse(raw[i].tpepPickupDatetime).Some? && parse(raw[i].tpepDropoffDatetime).Some?
  }

  /** `pd.to_datetime` on the pickup column, then on the dropoff column.
      The run fails on the first text of the first column that does not parse. */
  function Coerce(raw: seq<RawRecord>, parse: string -> Option<Timestamp>): (r: Result<seq<Row>, TransformError>)
    ensures r.Success? <==> AllParse(raw, parse)
    ensures r.Success? ==>
              |r.value| == |raw| &&
              forall i :: 0 <= i < |raw| ==>
                r.value[i] == WithTimestamps(raw[i], parse(raw[i].tpepPickupDatetime).value,
                                             parse(raw[i].tpepDropoffDatetime).value)
    ensures r.Failure? ==>
              var e := r.error;
              e.row < |raw| &&
              if e.column == PickupColumn then
                e.text == raw[e.row].tpepPickupDatetime && parse(e.text).None? &&
                forall j :: 0 <= j < e.row ==> parse(raw[j].tpepPickupDatetime).Some?
              else
                e.column == DropoffColumn &&
                e.text == raw[e.row].tpepDropoffDatetime && parse(e.text).None? &&
                (forall j :: 0 <= j < |raw| ==> parse(raw[j].tpepPickupDatetime).Some?) &&
                forall j :: 0 <= j < e.row ==> parse(raw[j].tpepDropoffDatetime).Some?
  {
    match ParseColumn(PickupTexts(raw), parse)
    case Failure(k) => Failure(TypeCoercionError(PickupColumn, k, raw[k].tpepPickupDatetime))
    case Success(pickups) =>
      match ParseColumn(DropoffTexts(raw), parse)
      case Failure(k) => Failure(TypeCoercionError(DropoffColumn, k, raw[k].tpepDropoffDatetime))
      case Success(dropoffs) =>
        Success(seq(|raw|, i requires 0 <= i < |raw| => WithTimestamps(raw[i], pickups[i], dropoffs[i])))
  }

  // ---------------------------------------------------------------------------
  // The star schema

  /** The eight tables derived from the deduplicated rows `df`. */
  predicate IsStarSchemaOf(s: StarSchema, df: seq<Row>) {
    && IsDatetimeDim(s.datetimeDim, df)
    && IsPassengerCountDim(s.passengerCountDim, df)
    && IsTripDistanceDim(s.tripDistanceDim, df)
    && IsRateCodeDim(s.rateCodeDim, df)
    && IsPickupLocationDim(s.pickupLocationDim, df)
    && IsDropoffLocationDim(s.dropoffLocationDim, df)
    && IsPaymentTypeDim(s.paymentTypeDim, df)
    && |s.factTable| == |df|
    && forall i :: 0 <= i < |df| ==> IsFactRowFor(s.factTable[i], i, df[i])
  }

  /** `transform_data`: coerce the timestamps, drop duplicate rows, number the
      trips, derive the seven dimensions and merge them into the fact table. */
  method TransformData(raw: seq<RawRecord>, parse: string -> Option<Timestamp>)
    returns (r: Result<StarSchema, TransformError>)
    ensures Coerce(raw, parse).Failure? ==> r == Failure(Coerce(raw, parse).error)
    ensures Coerce(raw, parse).Success? ==>
              r.Success? && IsStarSchemaOf(r.value, Distinct(Coerce(raw, parse).value))
  {
    var coerced := Coerce(raw, parse);
    if coerced.Failure? {
      return Failure(coerced.error);
    }
    var df := DropDuplicates(coerced.value);
    var base := AssignTripIds(df);
    var datetimeDim := BuildDatetimeDim(df);
    var passengerCountDim := BuildPassengerCountDim(df);
    var tripDistanceDim := BuildTripDistanceDim(df);
    var rateCodeDim := BuildRateCodeDim(df);
    var pickupLocationDim := BuildPickupLocationDim(df);
    var dropoffLocationDim := BuildDropoffLocationDim(df);
    var paymentTypeDim := BuildPaymentTypeDim(df);
    var factTable := FactTable(base, passengerCountDim, tripDistanceDim, rateCodeDim,
                               pickupLocationDim, dropoffLocationDim, datetimeDim, paymentTypeDim);
    FactTableAligned(df, base, passengerCountDim, tripDistanceDim, rateCodeDim,
                     pickupLocationDim, dropoffLocationDim, datetimeDim, paymentTypeDim);
    r := Success(StarSchema(factTable, datetimeDim, passengerCountDim, tripDistanceDim, rateCodeDim,
                            pickupLocationDim, dropoffLocationDim, paymentTypeDim));
  }

  // ---------------------------------------------------------------------------
  // Properties of the result

  /** The tables are determined by the deduplicated rows: two results for the
      same input are equal, so running the transformation twice gives the same
      tables. */
  lemma StarSchemaUnique(s1: StarSchema, s2: StarSchema, df: seq<Row>)
    requires IsStarSchemaOf(s1, df) && IsStarSchemaOf(s2, df)
    ensures s1 == s2
  {
    assert s1.datetimeDim == s2.datetimeDim;
    assert s1.passengerCountDim == s2.passengerCountDim;
    assert s1.tripDistanceDim == s2.tripDistanceDim;
    assert s1.rateCodeDim == s2.rateCodeDim;
    assert s1.pickupLocationDim == s2.pickupLocationDim;
    assert s1.dropoffLocationDim == s2.dropoffLocationDim;
    assert s1.paymentTypeDim == s2.paymentTypeDim;
    assert s1.factTable == s2.factTable;
  }

  /** Every table of the result has one row per distinct input row, and the
      trip ids of the fact table are exactly 0 .. N - 1, each once. */
  lemma StarSchemaRowCounts(s: StarSchema, df: seq<Row>)
    requires IsStarSchemaOf(s, df)
    ensures |s.factTable| == |s.datetimeDim| == |s.passengerCountDim| == |s.tripDistanceDim| == |df|
    ensures |s.rateCodeDim| == |s.pickupLocationDim| == |s.dropoffLocationDim| == |s.paymentTypeDim| == |df|
    ensures forall i :: 0 <= i < |df| ==> s.factTable[i].tripId == i
    ensures forall i, j :: 0 <= i < j < |df| ==> s.factTable[i].tripId != s.factTable[j].tripId
  {
  }

  /** Every fact row refers, through each of its dimension ids, to the
      dimension row that describes the same trip. */
  lemma FactRowsReferToTheirTrip(s: StarSchema, df: seq<Row>, i: int)
    requires IsStarSchemaOf(s, df) && 0 <= i < |df|
    ensures var f := s.factTable[i];
            && 0 <= f.datetimeId < |s.datetimeDim|
            && s.datetimeDim[f.datetimeId].tpepPickupDatetime == df[i].tpepPickupDatetime
            && s.datetimeDim[f.datetimeId].tpepDropoffDatetime == df[i].tpepDropoffDatetime
            && s.passengerCountDim[f.passengerCountId].passengerCount == df[i].passengerCount
            && s.tripDistanceDim[f.tripDistanceId].tripDistance == df[i].tripDistance
            && s.rateCodeDim[f.rateCodeId].ratecodeID == df[i].ratecodeID
            && s.pickupLocationDim[f.pickupLocationId].pickupLatitude == df[i].pickupLatitude
            && s.pickupLocationDim[f.pickupLocationId].pickupLongitude == df[i].pickupLongitude
            && s.dropoffLocationDim[f.dropoffLocationId].dropoffLatitude == df[i].dropoffLatitude
            && s.dropoffLocationDim[f.dropoffLocationId].dropoffLongitude == df[i].dropoffLongitude
            && s.paymentTypeDim[f.paymentTypeId].paymentType == df[i].paymentType
  {
  }

  /** Three rows of which the second repeats the first: two trips, with ids 0
      and 1, two fact rows and two datetime rows, each describing its own
      timestamps. */
  lemma DuplicateRowScenario(a: Row, b: Row, s: StarSchema)
    requires a != b
    requires IsStarSchemaOf(s, Distinct([a, a, b]))
    ensures Distinct([a, a, b]) == [a, b]
    ensures |s.factTable| == 2 && s.factTable[0].tripId == 0 && s.factTable[1].tripId == 1
    ensures IsFactRowFor(s.factTable[0], 0, a) && IsFactRowFor(s.factTable[1], 1, b)
    ensures |s.datetimeDim| == 2
    ensures s.datetimeDim[0] == DatetimeRowFor(0, a) && s.datetimeDim[1] == DatetimeRowFor(1, b)
  {
    assert Distinct([a]) == [a] by { assert [a][..0] == []; }
    assert Distinct([a, a]) == [a] by { assert [a, a][..1] == [a]; }
    assert [a, a, b][..2] == [a, a];
  }

  /** Timestamps are parsed before duplicates are dropped, so two rows whose
      pickup texts differ but denote the same instant are one trip, although
      their texts differ. */
  lemma CoercionBeforeDedup(r1: RawRecord, text: string, parse: string -> Option<Timestamp>)
    requires text != r1.tpepPickupDatetime
    requires parse(text).Some? && parse(text) == parse(r1.tpepPickupDatetime)
    requires parse(r1.tpepDropoffDatetime).Some?
    ensures var r2 := r1.(tpepPickupDatetime := text);
            && Distinct([r1, r2]) == [r1, r2]
            && Coerce([r1, r2], parse).Success?
            && |Distinct(Coerce([r1, r2], parse).value)| == 1
  {
    var r2 := r1.(tpepPickupDatetime := text);
    assert r1 != r2 by { assert r2.tpepPickupDatetime != r1.tpepPickupDatetime; }
    assert Distinct([r1]) == [r1] by { assert [r1][..0] == []; }
    assert [r1, r2][..1] == [r1];
    var rows := Coerce([r1, r2], parse).value;
    assert rows[0] == rows[1];
    assert rows == [rows[0], rows[0]];
    assert Distinct([rows[0]]) == [rows[0]] by { assert [rows[0]][..0] == []; }
    assert [rows[0], rows[0]][..1] == [rows[0]];
  }
}
