/**
 * The transform from a rate snapshot and a code-to-currency lookup to the
 * normalized response. The iteration order of the `bpi` HashMap is not part of
 * the contract: it is the parameter `order`, any sequence listing the map's keys
 * once each, and the properties below hold whichever order it is.
 */
module CoinDeskMapper {
  import opened Wrappers
  import opened CurrencyEntity
  import opened CoinDeskDto
  import IsoDateTime

  const NotAvailable := "N/A"

  /** `order` lists the keys of `m`, each exactly once. */
  predicate Enumerates(order: seq<string>, m: map<string, BpiData>) {
    && (forall i, j :: 0 <= i < j < |order| ==> order[i] != order[j])
    && (forall i :: 0 <= i < |order| ==> order[i] in m)
    && (forall k :: k in m ==> k in order)
  }

  /** `currencyMap.get(code)`: a null code finds nothing, as no row has a null code. */
  function LookupByCode(currencyMap: map<string, Currency>, code: Option<string>): (r: Option<Currency>)
    ensures r.Some? <==> code.Some? && code.value in currencyMap
    ensures r.Some? ==> r.value == currencyMap[code.value]
  {
    if code.Some? && code.value in currencyMap then Some(currencyMap[code.value]) else None
  }

  /** `toCurrencyInfo`: code and rate copied, the display name or "N/A". */
  function ToCurrencyInfo(bpiData: BpiData, currency: Option<Currency>): (info: CurrencyInfo)
    ensures info.code == bpiData.code && info.rate == bpiData.rateFloat
    ensures currency.Some? ==> info.chineseName == currency.value.displayName
    ensures currency.None? ==> info.chineseName == NotAvailable
  {
    CurrencyInfo(bpiData.code, if currency.Some? then currency.value.displayName else NotAvailable, bpiData.rateFloat)
  }

  /** `formatUpdatedTime`: the reformatted time, or the text itself when it does not parse. */
  function FormatUpdatedTime(isoDateTime: string): (r: string)
    ensures IsoDateTime.Parse(isoDateTime).None? ==> r == isoDateTime
    ensures IsoDateTime.Parse(isoDateTime).Some? ==> r == IsoDateTime.Format(IsoDateTime.Parse(isoDateTime).value)
  {
    match IsoDateTime.Parse(isoDateTime)
    case Some(zoned) => IsoDateTime.Format(zoned)
    case None => isoDateTime
  }

  /** The time step of `toTransformedResponse`. */
  function UpdatedTime(originalData: CoinDeskResponse): (r: string)
    ensures originalData.time.None? || originalData.time.value.updatedISO.None? ==> r == NotAvailable
    ensures originalData.time.Some? && originalData.time.value.updatedISO.Some? ==>
      r == FormatUpdatedTime(originalData.time.value.updatedISO.value)
  {
    if originalData.time.Some? && originalData.time.value.updatedISO.Some?
    then FormatUpdatedTime(originalData.time.value.updatedISO.value)
    else NotAvailable
  }

  /** The entry step: one CurrencyInfo per key, in the order given. */
  function CurrencyInfos(bpi: map<string, BpiData>, currencyMap: map<string, Currency>, order: seq<string>): (infos: seq<CurrencyInfo>)
    requires forall i :: 0 <= i < |order| ==> order[i] in bpi
    ensures |infos| == |order|
    ensures forall i :: 0 <= i < |order| ==>
      infos[i] == ToCurrencyInfo(bpi[order[i]], LookupByCode(currencyMap, bpi[order[i]].code))
  {
    seq(|order|, i requires 0 <= i < |order| =>
      ToCurrencyInfo(bpi[order[i]], LookupByCode(currencyMap, bpi[order[i]].code)))
  }

  /** `toTransformedResponse`. */
  function ToTransformedResponse(originalData: CoinDeskResponse, currencyMap: map<string, Currency>, order: seq<string>)
    : (r: TransformedCoinDeskResponse)
    requires originalData.bpi.Some? ==> Enumerates(order, originalData.bpi.value)
    ensures r.updatedTime == Some(UpdatedTime(originalData))
    ensures originalData.bpi.None? ==> r.currencyInfo == []
    ensures originalData.bpi.Some? ==> |r.currencyInfo| == |originalData.bpi.value|
  {
    match originalData.bpi
    case None => TransformedCoinDeskResponse(Some(UpdatedTime(originalData)), [])
    case Some(bpi) =>
      EnumerationCount(order, bpi);
      TransformedCoinDeskResponse(Some(UpdatedTime(originalData)), CurrencyInfos(bpi, currencyMap, order))
  }

  /** A sequence without repeats has as many distinct elements as it has positions. */
  lemma {:induction false} DistinctCount(order: seq<string>)
    requires forall i, j :: 0 <= i < j < |order| ==> order[i] != order[j]
    ensures |set i | 0 <= i < |order| :: order[i]| == |order|
  {
    if order != [] {
      var rest := order[1..];
      DistinctCount(rest);
      var all := set i | 0 <= i < |order| :: order[i];
      var tail := set i | 0 <= i < |rest| :: rest[i];
      assert all == tail + {order[0]} by {
        forall x | x in all ensures x in tail + {order[0]} {
          var i :| 0 <= i < |order| && order[i] == x;
          if i > 0 { assert rest[i - 1] == x; }
        }
        forall x | x in tail ensures x in all {
          var i :| 0 <= i < |rest| && rest[i] == x;
          assert order[i + 1] == x;
        }
      }
      assert order[0] !in tail by {
        forall i | 0 <= i < |rest| ensures rest[i] != order[0] {
          assert rest[i] == order[i + 1];
        }
      }
    }
  }

  /** One output entry per map entry: an enumeration is exactly as long as the map. */
  lemma EnumerationCount(order: seq<string>, m: map<string, BpiData>)
    requires Enumerates(order, m)
    ensures |order| == |m|
  {
    DistinctCount(order);
    var listed := set i | 0 <= i < |order| :: order[i];
    assert listed == m.Keys by {
      forall k | k in m ensures k in listed {
        var i :| 0 <= i < |order| && order[i] == k;
      }
    }
  }
}
