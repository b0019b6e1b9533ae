/**
 * The rate-feed snapshot as deserialized from the upstream JSON, and the
 * transformed response built from it. Every reference field of the Java DTOs
 * may be null, so each is an Option here.
 */
module CoinDeskDto {
  import opened Wrappers

  /** A Java `float`, kept as its 32-bit pattern: the rate is only ever copied. */
  datatype Float32 = Float32(bits: bv32)

  datatype TimeData = TimeData(updated: Option<string>, updatedISO: Option<string>, updateduk: Option<string>)

  /** One value of the `bpi` object. A missing `rate_float` deserializes to 0.0f. */
  datatype BpiData = BpiData(
    code: Option<string>,
    symbol: Option<string>,
    rate: Option<string>,
    description: Option<string>,
    rateFloat: Float32)

  /** `bpi` is keyed by currency code, an open set of keys. */
  datatype CoinDeskResponse = CoinDeskResponse(
    disclaimer: Option<string>,
    chartName: Option<string>,
    time: Option<TimeData>,
    bpi: Option<map<string, BpiData>>)

  datatype CurrencyInfo = CurrencyInfo(code: Option<string>, chineseName: string, rate: Float32)

  /** A null `currencyInfo` reads back as an empty list through its getter, so it is
      the empty sequence here. */
  datatype TransformedCoinDeskResponse = TransformedCoinDeskResponse(
    updatedTime: Option<string>,
    currencyInfo: seq<CurrencyInfo>)
}
