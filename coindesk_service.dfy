/**
 * `CoinDeskServiceImpl.getTransformedCoinDeskData`: fetch the snapshot, stop on a
 * null snapshot or a null `bpi`, otherwise key every stored currency row by code
 * (the first row wins on a repeated code) and hand both to the mapper.
 *
 * The HTTP fetch is an input: its failure, or the snapshot it produced (which may
 * be null). `findAll` is an input too: the rows in the order the repository yields.
 */
module CoinDeskServiceImpl {
  import opened Wrappers
  import opened CurrencyEntity
  import opened CoinDeskDto
  import opened CoinDeskMapper

  /** What the blocking fetch can throw: a connection failure, a 4xx/5xx answer, a body
      that does not deserialize. */
  datatype UpstreamError = ConnectionFailed | HttpStatus(status: int) | MalformedBody

  predicate HasCode(currencies: seq<Currency>, code: string) {
    exists i | 0 <= i < |currencies| :: currencies[i].code == code
  }

  /** `currencies[i]` is the first row carrying `code`. */
  predicate FirstWithCode(currencies: seq<Currency>, code: string, i: int) {
    && 0 <= i < |currencies|
    && currencies[i].code == code
    && forall j :: 0 <= j < i ==> currencies[j].code != code
  }

  lemma HasCodeCons(currencies: seq<Currency>, code: string)
    requires currencies != []
    ensures HasCode(currencies, code) <==> currencies[0].code == code || HasCode(currencies[1..], code)
  {
    if HasCode(currencies[1..], code) {
      var i :| 0 <= i < |currencies[1..]| && currencies[1..][i].code == code;
      assert currencies[i + 1].code == code;
    }
    if HasCode(currencies, code) && currencies[0].code != code {
      var i :| 0 <= i < |currencies| && currencies[i].code == code;
      assert currencies[1..][i - 1].code == code;
    }
  }

  lemma FirstWithCodeCons(currencies: seq<Currency>, code: string, i: int)
    requires currencies != [] && currencies[0].code != code
    requires FirstWithCode(currencies[1..], code, i)
    ensures FirstWithCode(currencies, code, i + 1) && currencies[i + 1] == currencies[1..][i]
  {
    forall j | 0 <= j < i + 1 ensures currencies[j].code != code {
      if j > 0 { assert currencies[j] == currencies[1..][j - 1]; }
    }
  }

  /** `Collectors.toMap(Currency::getCode, identity, (existing, replacement) -> existing)`. */
  function BuildCurrencyMap(currencies: seq<Currency>): (currencyMap: map<string, Currency>)
    ensures forall code :: code in currencyMap <==> HasCode(currencies, code)
    ensures forall code :: code in currencyMap ==>
      exists i :: FirstWithCode(currencies, code, i) && currencyMap[code] == currencies[i]
    ensures Keyed(currencyMap)
  {
    if currencies == [] then map[]
    else
      var rest := BuildCurrencyMap(currencies[1..]);
      var c := currencies[0];
      assert forall code :: HasCode(currencies, code) <==> code == c.code || HasCode(currencies[1..], code) by {
        forall code ensures HasCode(currencies, code) <==> code == c.code || HasCode(currencies[1..], code) {
          HasCodeCons(currencies, code);
        }
      }
      assert forall code :: code != c.code && code in rest ==>
        exists i :: FirstWithCode(currencies, code, i) && rest[code] == currencies[i] by {
        forall code | code != c.code && code in rest
          ensures exists i :: FirstWithCode(currencies, code, i) && rest[code] == currencies[i]
        {
          var i :| FirstWithCode(currencies[1..], code, i) && rest[code] == currencies[1..][i];
          FirstWithCodeCons(currencies, code, i);
        }
      }
      assert FirstWithCode(currencies, c.code, 0);
      rest[c.code := c]
  }

  /** `getTransformedCoinDeskData`. A fetch failure propagates; a null snapshot or a
      null `bpi` gives the empty response (no time, no entries); otherwise the mapper's
      response over the first-wins lookup. */
  function GetTransformedCoinDeskData(
    fetched: Result<Option<CoinDeskResponse>, UpstreamError>,
    currencies: seq<Currency>,
    order: seq<string>): (r: Result<TransformedCoinDeskResponse, UpstreamError>)
    requires fetched.Success? && fetched.value.Some? && fetched.value.value.bpi.Some? ==>
      Enumerates(order, fetched.value.value.bpi.value)
    ensures fetched.Failure? ==> r == Failure(fetched.error)
    ensures fetched.Success? && (fetched.value.None? || fetched.value.value.bpi.None?) ==>
      r == Success(TransformedCoinDeskResponse(None, []))
    ensures fetched.Success? && fetched.value.Some? && fetched.value.value.bpi.Some? ==>
      r == Success(ToTransformedResponse(fetched.value.value, BuildCurrencyMap(currencies), order))
  {
    match fetched
    case Failure(e) => Failure(e)
    case Success(None) => Success(TransformedCoinDeskResponse(None, []))
    case Success(Some(originalData)) =>
      if originalData.bpi.None? then Success(TransformedCoinDeskResponse(None, []))
      else Success(ToTransformedResponse(originalData, BuildCurrencyMap(currencies), order))
  }
}
