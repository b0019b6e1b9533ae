/**
 * What the lookup built from the currency table is, and the transform end to end:
 * names come from every stored row, soft-deleted ones included.
 */
module CoinDeskServiceProperties {
  import opened Wrappers
  import opened CurrencyEntity
  import opened CoinDeskDto
  import opened CoinDeskMapper
  import opened CoinDeskServiceImpl
  import CoinDeskMapperProperties

  /** `currencies` is what `findAll` returns for `store`: every row, nothing else. */
  predicate ListsTable(currencies: seq<Currency>, store: Store) {
    && (forall i :: 0 <= i < |currencies| ==> currencies[i].code in store && store[currencies[i].code] == currencies[i])
    && (forall code :: code in store ==> HasCode(currencies, code))
  }

  /** Over the table's rows, in any order, the lookup is the table itself: the code is
      the primary key, so the first-wins rule never has to choose. */
  lemma CurrencyMapOfTable(store: Store, currencies: seq<Currency>)
    requires Keyed(store) && ListsTable(currencies, store)
    ensures BuildCurrencyMap(currencies) == store
  {
    var m := BuildCurrencyMap(currencies);
    assert m.Keys == store.Keys by {
      forall code | code in m ensures code in store {
        var i :| 0 <= i < |currencies| && currencies[i].code == code;
      }
    }
    forall code | code in m ensures m[code] == store[code] {
      var i :| FirstWithCode(currencies, code, i) && m[code] == currencies[i];
    }
  }

  /** Two rows with one code: the first is kept. */
  lemma RepeatedCodeKeepsFirst()
    ensures var first := Currency("USD", "美金", Some("$"), true);
      var second := Currency("USD", "US Dollar", None, false);
      BuildCurrencyMap([first, second]) == map["USD" := first]
  {
    var first := Currency("USD", "美金", Some("$"), true);
    var second := Currency("USD", "US Dollar", None, false);
    var m := BuildCurrencyMap([first, second]);
    assert "USD" in m by { assert [first, second][0].code == "USD"; }
    var i :| FirstWithCode([first, second], "USD", i) && m["USD"] == [first, second][i];
    assert i == 0;
  }

  /** End to end: an entry whose code names a stored row carries that row's display
      name whether or not the row is active; any other entry carries "N/A". */
  lemma EntryNamedFromTable(
    store: Store, currencies: seq<Currency>,
    originalData: CoinDeskResponse, order: seq<string>, i: int)
    requires Keyed(store) && ListsTable(currencies, store)
    requires originalData.bpi.Some? && Enumerates(order, originalData.bpi.value)
    requires 0 <= i < |originalData.bpi.value|
    ensures var r := GetTransformedCoinDeskData(Success(Some(originalData)), currencies, order);
      var code := originalData.bpi.value[order[i]].code;
      && r.Success? && i < |r.value.currencyInfo|
      && (code.Some? && code.value in store ==> r.value.currencyInfo[i].chineseName == store[code.value].displayName)
      && (code.None? || code.value !in store ==> r.value.currencyInfo[i].chineseName == NotAvailable)
  {
    CurrencyMapOfTable(store, currencies);
    EnumerationCount(order, originalData.bpi.value);
  }

  /** A null snapshot, or one without `bpi`, gives no time and no entries even when
      the time block is present. */
  lemma NoRatesGiveEmptyResponse(time: Option<TimeData>, currencies: seq<Currency>, order: seq<string>)
    ensures GetTransformedCoinDeskData(Success(None), currencies, order)
      == Success(TransformedCoinDeskResponse(None, []))
    ensures GetTransformedCoinDeskData(Success(Some(CoinDeskResponse(None, None, time, None))), currencies, order)
      == Success(TransformedCoinDeskResponse(None, []))
  {
  }

  /** The entries of the service's success path, for any time block. */
  lemma SuccessPathEntries(time: Option<TimeData>, usdRate: Float32, gbpRate: Float32, order: seq<string>)
    requires
      var usd := BpiData(Some("USD"), None, None, None, usdRate);
      var gbp := BpiData(Some("GBP"), None, None, None, gbpRate);
      Enumerates(order, map["USD" := usd, "GBP" := gbp])
    ensures
      var usd := BpiData(Some("USD"), None, None, None, usdRate);
      var gbp := BpiData(Some("GBP"), None, None, None, gbpRate);
      var snapshot := CoinDeskResponse(None, None, time, Some(map["USD" := usd, "GBP" := gbp]));
      var r := GetTransformedCoinDeskData(Success(Some(snapshot)), [Currency("USD", "美金", None, true)], order);
      && r == Success(TransformedCoinDeskResponse(Some(UpdatedTime(snapshot)), r.value.currencyInfo))
      && |r.value.currencyInfo| == 2
      && (exists i :: 0 <= i < 2 && r.value.currencyInfo[i] == CurrencyInfo(Some("USD"), "美金", usdRate))
      && (exists i :: 0 <= i < 2 && r.value.currencyInfo[i] == CurrencyInfo(Some("GBP"), NotAvailable, gbpRate))
  {
    var usd := BpiData(Some("USD"), None, None, None, usdRate);
    var gbp := BpiData(Some("GBP"), None, None, None, gbpRate);
    var bpi := map["USD" := usd, "GBP" := gbp];
    var row := Currency("USD", "美金", None, true);
    var currencyMap := BuildCurrencyMap([row]);
    assert currencyMap == map["USD" := row] by {
      assert [row][0].code == "USD";
      assert forall code :: HasCode([row], code) ==> code == "USD";
    }
    EnumerationCount(order, bpi);
    var iu :| 0 <= iu < |order| && order[iu] == "USD";
    var ig :| 0 <= ig < |order| && order[ig] == "GBP";
  }

  /** The service's success path: USD is stored as 美金, GBP is not stored, and the
      snapshot's ISO time is shown reformatted. */
  lemma SuccessPathExample(usdRate: Float32, gbpRate: Float32, order: seq<string>)
    requires
      var usd := BpiData(Some("USD"), None, None, None, usdRate);
      var gbp := BpiData(Some("GBP"), None, None, None, gbpRate);
      Enumerates(order, map["USD" := usd, "GBP" := gbp])
    ensures
      var usd := BpiData(Some("USD"), None, None, None, usdRate);
      var gbp := BpiData(Some("GBP"), None, None, None, gbpRate);
      var snapshot := CoinDeskResponse(None, None,
        Some(TimeData(None, Some("2024-09-02T07:07:20+00:00"), None)), Some(map["USD" := usd, "GBP" := gbp]));
      var r := GetTransformedCoinDeskData(Success(Some(snapshot)), [Currency("USD", "美金", None, true)], order);
      && r.Success?
      && r.value.updatedTime == Some("2024/09/02 07:07:20")
      && |r.value.currencyInfo| == 2
      && (exists i :: 0 <= i < 2 && r.value.currencyInfo[i] == CurrencyInfo(Some("USD"), "美金", usdRate))
      && (exists i :: 0 <= i < 2 && r.value.currencyInfo[i] == CurrencyInfo(Some("GBP"), NotAvailable, gbpRate))
  {
    SuccessPathEntries(Some(TimeData(None, Some("2024-09-02T07:07:20+00:00"), None)), usdRate, gbpRate, order);
    CoinDeskMapperProperties.SampleTimeIsReformatted();
  }
}
