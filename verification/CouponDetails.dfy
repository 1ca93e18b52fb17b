/** Reading the coupon map and the detail rows that a comparison's baseline comes from. */
module CouponDetails {
  import opened Basics
  import opened FeeComparison

  // ---------------------------------------------------------------- cents

  /** `quantize(Decimal(1), ROUND_HALF_UP)`: nearest integer, halves away from zero. */
  function RoundHalfUp(x: real): int {
    if x >= 0.0 then (x + 0.5).Floor else -((-x + 0.5).Floor)
  }

  /** Yuan to cents; a blank cell stays unknown. */
  function ParseCent(yuan: Option<real>): Option<int> {
    if yuan.None? then None else Some(RoundHalfUp(yuan.value * 100.0))
  }

  /** The rounded value is the nearest integer, and the one farther from zero when two are as near. */
  lemma RoundsToNearest(x: real, n: int)
    ensures n == RoundHalfUp(x) <==>
            -0.5 <= x - n as real <= 0.5 && (x >= 0.0 ==> x - n as real < 0.5) && (x < 0.0 ==> -0.5 < x - n as real)
  {
  }

  /** Rounding is signed: it commutes with negation. */
  lemma RoundIsOdd(x: real)
    ensures RoundHalfUp(-x) == -RoundHalfUp(x)
  {
  }

  /** Whole cents survive the trip through yuan exactly. */
  lemma CentsRoundTrip(cents: int)
    ensures ParseCent(Some(cents as real / 100.0)) == Some(cents)
  {
    assert cents as real / 100.0 * 100.0 == cents as real;
    RoundsToNearest(cents as real, cents);
  }

  // ---------------------------------------------------------------- the coupon map

  datatype CodeKey = CodeKey(order: Text, code: Text)
  datatype IdKey = IdKey(order: Text, id: Text)

  /** One mapping row; None is a value that is not a nonempty trimmed string. */
  datatype MapRow = MapRow(order: Option<Text>, code: Option<Text>, id: Option<Text>) {
    predicate Valid() {
      order.Some? && code.Some? && id.Some?
    }
  }

  type CouponMap = map<CodeKey, Text>

  datatype MapError = InvalidIdentifier | CodeHasManyIds | IdHasManyCodes

  ghost predicate AllValid(rows: seq<MapRow>) {
    forall row :: row in rows ==> row.Valid()
  }

  /** Within each order, codes and ids determine one another. */
  ghost predicate OneToOne(rows: seq<MapRow>) {
    forall a, b :: a in rows && b in rows && a.order == b.order ==> (a.code == b.code <==> a.id == b.id)
  }

  /** The map holds exactly the facts of the rows. */
  ghost predicate MapsRows(mapping: CouponMap, rows: seq<MapRow>) {
    && (forall row :: row in rows ==> row.Valid() && Get(mapping, row.order.value, row.code.value) == row.id)
    && (forall k :: k in mapping ==> MapRow(Some(k.order), Some(k.code), Some(mapping[k])) in rows)
  }

  ghost predicate ReverseOf(reverse: map<IdKey, Text>, rows: seq<MapRow>) {
    && (forall row :: row in rows ==> row.Valid() && IdKey(row.order.value, row.id.value) in reverse)
    && (forall k :: k in reverse ==> MapRow(Some(k.order), Some(reverse[k]), Some(k.id)) in rows)
  }

  function Get(mapping: CouponMap, order: Text, code: Text): Option<Text> {
    if CodeKey(order, code) in mapping then Some(mapping[CodeKey(order, code)]) else None
  }

  lemma OneToOneStep(rows: seq<MapRow>, mapping: CouponMap, reverse: map<IdKey, Text>, row: MapRow)
    requires OneToOne(rows) && MapsRows(mapping, rows) && ReverseOf(reverse, rows) && row.Valid()
    requires Get(mapping, row.order.value, row.code.value).GetOr(row.id.value) == row.id.value
    requires var key := IdKey(row.order.value, row.id.value); key in reverse ==> reverse[key] == row.code.value
    ensures OneToOne(rows + [row])
  {
    forall a | a in rows && a.order == row.order
      ensures a.code == row.code <==> a.id == row.id
    {
      if a.id == row.id {
        var k := IdKey(row.order.value, row.id.value);
        assert MapRow(Some(k.order), Some(reverse[k]), Some(k.id)) in rows;
      }
    }
  }

  lemma MapsStep(rows: seq<MapRow>, mapping: CouponMap, reverse: map<IdKey, Text>, row: MapRow)
    requires MapsRows(mapping, rows) && ReverseOf(reverse, rows) && row.Valid() && OneToOne(rows + [row])
    ensures MapsRows(mapping[CodeKey(row.order.value, row.code.value) := row.id.value], rows + [row])
    ensures ReverseOf(reverse[IdKey(row.order.value, row.id.value) := row.code.value], rows + [row])
  {
    assert row in rows + [row];
  }

  ghost predicate ReadSoFar(rows: seq<MapRow>, mapping: CouponMap, reverse: map<IdKey, Text>) {
    OneToOne(rows) && MapsRows(mapping, rows) && ReverseOf(reverse, rows)
  }

  lemma ReadStep(rows: seq<MapRow>, i: nat, mapping: CouponMap, reverse: map<IdKey, Text>)
    requires i < |rows| && ReadSoFar(rows[..i], mapping, reverse) && rows[i].Valid()
    requires Get(mapping, rows[i].order.value, rows[i].code.value).GetOr(rows[i].id.value) == rows[i].id.value
    requires var key := IdKey(rows[i].order.value, rows[i].id.value);
             key in reverse ==> reverse[key] == rows[i].code.value
    ensures ReadSoFar(rows[..i + 1],
                      mapping[CodeKey(rows[i].order.value, rows[i].code.value) := rows[i].id.value],
                      reverse[IdKey(rows[i].order.value, rows[i].id.value) := rows[i].code.value])
  {
    OneToOneStep(rows[..i], mapping, reverse, rows[i]);
    MapsStep(rows[..i], mapping, reverse, rows[i]);
    assert rows[..i + 1] == rows[..i] + [rows[i]];
  }

  lemma CodeConflict(rows: seq<MapRow>, i: nat, mapping: CouponMap, reverse: map<IdKey, Text>)
    requires i < |rows| && ReadSoFar(rows[..i], mapping, reverse) && rows[i].Valid()
    requires var key := CodeKey(rows[i].order.value, rows[i].code.value);
             key in mapping && mapping[key] != rows[i].id.value
    ensures !OneToOne(rows)
  {
    var other := MapRow(rows[i].order, rows[i].code, Some(mapping[CodeKey(rows[i].order.value, rows[i].code.value)]));
    assert other in rows[..i] && rows[i] in rows;
    assert other.code == rows[i].code && other.id != rows[i].id;
  }

  lemma IdConflict(rows: seq<MapRow>, i: nat, mapping: CouponMap, reverse: map<IdKey, Text>)
    requires i < |rows| && ReadSoFar(rows[..i], mapping, reverse) && rows[i].Valid()
    requires var key := IdKey(rows[i].order.value, rows[i].id.value);
             key in reverse && reverse[key] != rows[i].code.value
    ensures !OneToOne(rows)
  {
    var other := MapRow(rows[i].order, Some(reverse[IdKey(rows[i].order.value, rows[i].id.value)]), rows[i].id);
    assert other in rows[..i] && rows[i] in rows;
    assert other.id == rows[i].id && other.code != rows[i].code;
  }

  /** Accept the mapping exactly when every field is valid and the facts are one-to-one within each order. */
  method ReadCouponMap(rows: seq<MapRow>) returns (result: Result<CouponMap, MapError>)
    ensures result.Ok? <==> AllValid(rows) && OneToOne(rows)
    ensures result.Ok? ==> MapsRows(result.value, rows)
  {
    var mapping: CouponMap := map[];
    var reverse: map<IdKey, Text> := map[];
    for i := 0 to |rows|
      invariant ReadSoFar(rows[..i], mapping, reverse)
    {
      var row := rows[i];
      if !row.Valid() {
        assert row in rows;
        return Err(InvalidIdentifier);
      }
      var key, reverseKey := CodeKey(row.order.value, row.code.value), IdKey(row.order.value, row.id.value);
      if key in mapping && mapping[key] != row.id.value {
        CodeConflict(rows, i, mapping, reverse);
        return Err(CodeHasManyIds);
      }
      if reverseKey in reverse && reverse[reverseKey] != row.code.value {
        IdConflict(rows, i, mapping, reverse);
        return Err(IdHasManyCodes);
      }
      ReadStep(rows, i, mapping, reverse);
      mapping := mapping[key := row.id.value];
      reverse := reverse[reverseKey := row.code.value];
    }
    assert rows[..|rows|] == rows;
    return Ok(mapping);
  }

  // ---------------------------------------------------------------- detail rows

  /** A table row after classification; only business rows of the right month yield records. */
  datatype DetailRow =
    | ExcludedRow
    | BusinessRow(order: Text, code: Text, receipt: Option<real>, rate: Option<real>,
                  promotionStore: Text, promotionFee: Option<real>, managementStore: Text, managementFee: Option<real>)

  datatype DetailError = RateOutOfRange

  /** A fee record together with the coupon code it was read from. */
  datatype Detail = Detail(record: Record, code: Text, isAnomaly: bool)

  function StoreRef(row: DetailRow, direction: Direction): Text
    requires row.BusinessRow?
  {
    if direction == Promotion then row.promotionStore else row.managementStore
  }

  function Fee(row: DetailRow, direction: Direction): Option<int>
    requires row.BusinessRow?
  {
    ParseCent(if direction == Promotion then row.promotionFee else row.managementFee)
  }

  /** The stated fee is not the receipt times the rate, rounded to the cent. */
  predicate FeeMismatch(receipt: Option<int>, rate: Option<real>, fee: Option<int>) {
    receipt.Some? && rate.Some? && fee.Some? && RoundHalfUp(receipt.value as real * rate.value) != fee.value
  }

  function DetailOf(row: DetailRow, direction: Direction, month: Text, stores: map<Text, Text>,
                    coupons: CouponMap): Detail
    requires row.BusinessRow?
  {
    var fee, receipt := Fee(row, direction), ParseCent(row.receipt);
    var ref := StoreRef(row, direction);
    Detail(Record(Some(month), Some(direction), Some(row.order), Get(coupons, row.order, row.code),
                  if ref in stores then Some(stores[ref]) else None, fee, row.rate, receipt, None),
           row.code, FeeMismatch(receipt, row.rate, fee))
  }

  predicate RateInRange(row: DetailRow) {
    row.BusinessRow? && row.rate.Some? ==> 0.0 <= row.rate.value <= 1.0
  }

  /** Each business row in turn gives its promotion record, then its management record. */
  function DetailsOf(rows: seq<DetailRow>, month: Text, stores: map<Text, Text>, coupons: CouponMap): seq<Detail> {
    if rows == [] then []
    else
      var front, last := DetailsOf(rows[..|rows| - 1], month, stores, coupons), rows[|rows| - 1];
      if last.ExcludedRow? then front
      else front + [DetailOf(last, Promotion, month, stores, coupons),
                    DetailOf(last, Management, month, stores, coupons)]
  }

  method ParseDetails(rows: seq<DetailRow>, month: Text, stores: map<Text, Text>, coupons: CouponMap)
    returns (result: Result<seq<Detail>, DetailError>, business: nat)
    ensures result.Ok? <==> forall i :: 0 <= i < |rows| ==> RateInRange(rows[i])
    ensures result.Err? <==>
            exists i :: 0 <= i < |rows| && rows[i].BusinessRow? && rows[i].rate.Some? &&
                        (rows[i].rate.value < 0.0 || rows[i].rate.value > 1.0)
    ensures result.Ok? ==> result.value == DetailsOf(rows, month, stores, coupons) && |result.value| == 2 * business
  {
    var details: seq<Detail> := [];
    business := 0;
    for i := 0 to |rows|
      invariant details == DetailsOf(rows[..i], month, stores, coupons) && |details| == 2 * business
      invariant forall j :: 0 <= j < i ==> RateInRange(rows[j])
    {
      var row := rows[i];
      assert rows[..i + 1][..i] == rows[..i];
      if row.ExcludedRow? {
        continue;
      }
      business := business + 1;
      if row.rate.Some? && !(0.0 <= row.rate.value <= 1.0) {
        return Err(RateOutOfRange), business;
      }
      var receipt := ParseCent(row.receipt);
      var directions := [Promotion, Management];
      for d := 0 to 2
        invariant details == DetailsOf(rows[..i], month, stores, coupons)
                  + if d == 0 then []
                    else if d == 1 then [DetailOf(row, Promotion, month, stores, coupons)]
                    else [DetailOf(row, Promotion, month, stores, coupons),
                          DetailOf(row, Management, month, stores, coupons)]
      {
        var direction := directions[d];
        var ref := StoreRef(row, direction);
        var fee := Fee(row, direction);
        var record := Record(Some(month), Some(direction), Some(row.order),
                             Get(coupons, row.order, row.code), if ref in stores then Some(stores[ref]) else None,
                             fee, row.rate, receipt, None);
        details := details + [Detail(record, row.code, FeeMismatch(receipt, row.rate, fee))];
      }
    }
    assert rows[..|rows|] == rows;
    return Ok(details), business;
  }

  /** Every parsed record names the row it came from. */
  lemma {:induction false} DetailsComeFromRows(rows: seq<DetailRow>, month: Text, stores: map<Text, Text>,
                                               coupons: CouponMap, d: Detail)
    requires d in DetailsOf(rows, month, stores, coupons)
    ensures d.record.order.Some? && d.record.coupon == Get(coupons, d.record.order.value, d.code)
  {
    var front, last := rows[..|rows| - 1], rows[|rows| - 1];
    if d in DetailsOf(front, month, stores, coupons) {
      DetailsComeFromRows(front, month, stores, coupons, d);
    } else {
      assert d == DetailOf(last, Promotion, month, stores, coupons) ||
             d == DetailOf(last, Management, month, stores, coupons);
    }
  }

  /** With an accepted coupon map, records with the same known key carry the same order and the same coupon code. */
  lemma SharedKeyMeansSameCoupon(facts: seq<MapRow>, coupons: CouponMap, rows: seq<DetailRow>, month: Text,
                                 stores: map<Text, Text>, a: Detail, b: Detail)
    requires OneToOne(facts) && MapsRows(coupons, facts)
    requires a in DetailsOf(rows, month, stores, coupons) && b in DetailsOf(rows, month, stores, coupons)
    requires KeyOf(a.record).Some? && KeyOf(a.record) == KeyOf(b.record)
    ensures a.record.order == b.record.order && a.code == b.code
  {
    DetailsComeFromRows(rows, month, stores, coupons, a);
    DetailsComeFromRows(rows, month, stores, coupons, b);
    var order := a.record.order.value;
    assert MapRow(Some(order), Some(a.code), Some(coupons[CodeKey(order, a.code)])) in facts;
    assert MapRow(Some(order), Some(b.code), Some(coupons[CodeKey(order, b.code)])) in facts;
  }

  // ---------------------------------------------------------------- what a record says

  /** The business rows in order. */
  function Business(rows: seq<DetailRow>): seq<DetailRow> {
    if rows == [] then []
    else
      var front, last := Business(rows[..|rows| - 1]), rows[|rows| - 1];
      if last.BusinessRow? then front + [last] else front
  }

  lemma {:induction false} DetailsAt(rows: seq<DetailRow>, month: Text, stores: map<Text, Text>, coupons: CouponMap,
                                     j: nat)
    requires j < |Business(rows)|
    ensures Business(rows)[j].BusinessRow? && |DetailsOf(rows, month, stores, coupons)| == 2 * |Business(rows)|
    ensures var details, row := DetailsOf(rows, month, stores, coupons), Business(rows)[j];
            && details[2 * j] == DetailOf(row, Promotion, month, stores, coupons)
            && details[2 * j + 1] == DetailOf(row, Management, month, stores, coupons)
  {
    var front, last := rows[..|rows| - 1], rows[|rows| - 1];
    DetailsSize(front, month, stores, coupons);
    if j < |Business(front)| {
      DetailsAt(front, month, stores, coupons, j);
    }
  }

  lemma {:induction false} DetailsSize(rows: seq<DetailRow>, month: Text, stores: map<Text, Text>, coupons: CouponMap)
    ensures |DetailsOf(rows, month, stores, coupons)| == 2 * |Business(rows)|
  {
    if rows != [] {
      DetailsSize(rows[..|rows| - 1], month, stores, coupons);
    }
  }

  /** `n` is a money cell in cents: unknown if blank, else the nearest cent, halves away from zero. */
  ghost predicate IsCents(n: Option<int>, yuan: Option<real>) {
    if yuan.None? then n.None?
    else n.Some? && var gap := yuan.value * 100.0 - n.value as real;
         if yuan.value >= 0.0 then -0.5 <= gap < 0.5 else -0.5 < gap <= 0.5
  }

  /** What a record says of its row, given the store and the fee of its direction. */
  ghost predicate Says(d: Detail, row: DetailRow, direction: Direction, storeRef: Text, fee: Option<real>, month: Text,
                       stores: map<Text, Text>, coupons: CouponMap)
    requires row.BusinessRow?
  {
    && d.code == row.code
    && d.record.month == Some(month) && d.record.direction == Some(direction) && d.record.order == Some(row.order)
    && d.record.coupon == (if CodeKey(row.order, row.code) in coupons then Some(coupons[CodeKey(row.order, row.code)])
                           else None)
    && d.record.store == (if storeRef in stores then Some(stores[storeRef]) else None)
    && IsCents(d.record.amountCent, fee) && IsCents(d.record.receiptCent, row.receipt)
    && d.record.rate == row.rate && d.record.sku == None
  }

  lemma CentsMean(yuan: Option<real>)
    ensures IsCents(ParseCent(yuan), yuan)
  {
    if yuan.Some? {
      RoundsToNearest(yuan.value * 100.0, RoundHalfUp(yuan.value * 100.0));
    }
  }

  /**
   * Business row `j` gives record `2 j` with its promotion store and fee and record `2 j + 1` with its management
   * store and fee; month, order, coupon, rate and receipt are the same in both.
   */
  lemma RecordsSay(rows: seq<DetailRow>, month: Text, stores: map<Text, Text>, coupons: CouponMap, j: nat)
    requires j < |Business(rows)|
    ensures Business(rows)[j].BusinessRow? && |DetailsOf(rows, month, stores, coupons)| == 2 * |Business(rows)|
    ensures var details, row := DetailsOf(rows, month, stores, coupons), Business(rows)[j];
            && Says(details[2 * j], row, Promotion, row.promotionStore, row.promotionFee, month, stores, coupons)
            && Says(details[2 * j + 1], row, Management, row.managementStore, row.managementFee, month, stores, coupons)
  {
    DetailsAt(rows, month, stores, coupons, j);
    var row := Business(rows)[j];
    CentsMean(row.promotionFee);
    CentsMean(row.managementFee);
    CentsMean(row.receipt);
  }

  /** A record is an anomaly exactly if its fee is not within half a cent of its receipt times its rate. */
  lemma AnomalyMeans(receipt: Option<int>, rate: Option<real>, fee: Option<int>)
    ensures FeeMismatch(receipt, rate, fee) <==>
            && receipt.Some? && rate.Some? && fee.Some?
            && var exact := receipt.value as real * rate.value;
               var gap := exact - fee.value as real;
               if exact >= 0.0 then !(-0.5 <= gap < 0.5) else !(-0.5 < gap <= 0.5)
  {
    if receipt.Some? && rate.Some? && fee.Some? {
      RoundsToNearest(receipt.value as real * rate.value, fee.value);
    }
  }
}
