/**
 * What the transform promises per entry and in total, that it does not depend
 * on the HashMap's iteration order, and its two time fallbacks.
 */
module CoinDeskMapperProperties {
  import opened Wrappers
  import opened CurrencyEntity
  import opened CoinDeskDto
  import opened CoinDeskMapper
  import IsoDateTime

  /** Every key of the snapshot's map gives exactly one output entry, built from that
      key's value; an entry's code and rate are the value's `code` and `rateFloat`. */
  lemma EachKeyExactlyOnce(originalData: CoinDeskResponse, currencyMap: map<string, Currency>, order: seq<string>, k: string)
    requires originalData.bpi.Some? && Enumerates(order, originalData.bpi.value)
    requires k in originalData.bpi.value
    ensures var infos := ToTransformedResponse(originalData, currencyMap, order).currencyInfo;
      var bpiData := originalData.bpi.value[k];
      exists i :: 0 <= i < |infos| && order[i] == k
        && infos[i].code == bpiData.code && infos[i].rate == bpiData.rateFloat
        && infos[i] == ToCurrencyInfo(bpiData, LookupByCode(currencyMap, bpiData.code))
        && forall j :: 0 <= j < |infos| && order[j] == k ==> j == i
    ensures |ToTransformedResponse(originalData, currencyMap, order).currencyInfo| == |originalData.bpi.value|
  {
    var i :| 0 <= i < |order| && order[i] == k;
    EnumerationCount(order, originalData.bpi.value);
  }

  /** An entry's name is the display name of the row stored under the entry's own `code`
      (not under the map key), and "N/A" when there is none. */
  lemma ChineseNameRule(originalData: CoinDeskResponse, currencyMap: map<string, Currency>, order: seq<string>, i: int)
    requires originalData.bpi.Some? && Enumerates(order, originalData.bpi.value)
    requires 0 <= i < |order|
    ensures var info := ToTransformedResponse(originalData, currencyMap, order).currencyInfo[i];
      var code := originalData.bpi.value[order[i]].code;
      && (code.Some? && code.value in currencyMap ==> info.chineseName == currencyMap[code.value].displayName)
      && (code.None? || code.value !in currencyMap ==> info.chineseName == NotAvailable)
      && (info.chineseName == NotAvailable <==>
            code.None? || code.value !in currencyMap || currencyMap[code.value].displayName == NotAvailable)
  {
    EnumerationCount(order, originalData.bpi.value);
  }

  /** "N/A" alone does not show the code was missing: a row whose display name is "N/A"
      gives the same name. */
  lemma NotAvailableIsNotProofOfAbsence()
    ensures var row := Currency("XAU", NotAvailable, None, true);
      var bpiData := BpiData(Some("XAU"), None, None, None, Float32(0));
      ToCurrencyInfo(bpiData, LookupByCode(map["XAU" := row], bpiData.code)).chineseName == NotAvailable
  {
  }

  lemma {:induction false} CurrencyInfosAppend(bpi: map<string, BpiData>, currencyMap: map<string, Currency>, a: seq<string>, b: seq<string>)
    requires forall i :: 0 <= i < |a| ==> a[i] in bpi
    requires forall i :: 0 <= i < |b| ==> b[i] in bpi
    ensures CurrencyInfos(bpi, currencyMap, a + b) == CurrencyInfos(bpi, currencyMap, a) + CurrencyInfos(bpi, currencyMap, b)
  {
    var ab := a + b;
    assert forall i :: 0 <= i < |ab| ==> ab[i] in bpi;
    var l := CurrencyInfos(bpi, currencyMap, ab);
    var r := CurrencyInfos(bpi, currencyMap, a) + CurrencyInfos(bpi, currencyMap, b);
    assert |l| == |r|;
    forall i | 0 <= i < |l| ensures l[i] == r[i] {
      if i < |a| { assert ab[i] == a[i]; } else { assert ab[i] == b[i - |a|]; }
    }
  }

  lemma RemoveAt(o: seq<string>, j: int)
    requires 0 <= j < |o|
    ensures multiset(o[..j] + o[j + 1..]) == multiset(o) - multiset{o[j]}
  {
    assert o == o[..j] + [o[j]] + o[j + 1..];
  }

  lemma RemoveFirst(o: seq<string>)
    requires o != []
    ensures multiset(o[1..]) == multiset(o) - multiset{o[0]}
  {
    assert o == [o[0]] + o[1..];
  }

  /** Listing one key first or at position `j` gives the same entries. */
  lemma MoveToFront(bpi: map<string, BpiData>, currencyMap: map<string, Currency>, o: seq<string>, j: int)
    requires forall i :: 0 <= i < |o| ==> o[i] in bpi
    requires 0 <= j < |o|
    ensures var rest := o[..j] + o[j + 1..];
      forall i :: 0 <= i < |rest| ==> rest[i] in bpi
    ensures multiset(CurrencyInfos(bpi, currencyMap, o))
      == multiset(CurrencyInfos(bpi, currencyMap, [o[j]] + o[..j] + o[j + 1..]))
  {
    var pre, x, post := o[..j], [o[j]], o[j + 1..];
    assert o == pre + x + post;
    assert forall i :: 0 <= i < |pre| ==> pre[i] in bpi;
    assert forall i :: 0 <= i < |post| ==> post[i] in bpi;
    CurrencyInfosAppend(bpi, currencyMap, pre + x, post);
    CurrencyInfosAppend(bpi, currencyMap, pre, x);
    CurrencyInfosAppend(bpi, currencyMap, x + pre, post);
    CurrencyInfosAppend(bpi, currencyMap, x, pre);
    assert x + pre + post == (x + pre) + post;
  }

  lemma SameRest(o1: seq<string>, o2: seq<string>, j: int)
    requires o1 != [] && 0 <= j < |o2| && o2[j] == o1[0]
    requires multiset(o1) == multiset(o2)
    ensures multiset(o1[1..]) == multiset(o2[..j] + o2[j + 1..])
  {
    RemoveAt(o2, j);
    RemoveFirst(o1);
  }

  /** The step of the induction below: equal entries for the tails give equal entries
      once the first key is put back. */
  lemma PermuteStep(bpi: map<string, BpiData>, currencyMap: map<string, Currency>, o1: seq<string>, o2: seq<string>, j: int, rest: seq<string>)
    requires forall i :: 0 <= i < |o1| ==> o1[i] in bpi
    requires forall i :: 0 <= i < |o2| ==> o2[i] in bpi
    requires o1 != [] && 0 <= j < |o2| && o2[j] == o1[0]
    requires rest == o2[..j] + o2[j + 1..] && forall i :: 0 <= i < |rest| ==> rest[i] in bpi
    requires multiset(CurrencyInfos(bpi, currencyMap, o1[1..])) == multiset(CurrencyInfos(bpi, currencyMap, rest))
    ensures multiset(CurrencyInfos(bpi, currencyMap, o1)) == multiset(CurrencyInfos(bpi, currencyMap, o2))
  {
    var x, tail := o1[0], o1[1..];
    MoveToFront(bpi, currencyMap, o2, j);
    assert o1 == [x] + tail;
    assert [x] + o2[..j] + o2[j + 1..] == [x] + rest;
    CurrencyInfosAppend(bpi, currencyMap, [x], tail);
    CurrencyInfosAppend(bpi, currencyMap, [x], rest);
  }

  /** Two orders holding the same keys as often give the same entries as often. */
  lemma {:induction false} CurrencyInfosPermute(bpi: map<string, BpiData>, currencyMap: map<string, Currency>, o1: seq<string>, o2: seq<string>)
    requires forall i :: 0 <= i < |o1| ==> o1[i] in bpi
    requires forall i :: 0 <= i < |o2| ==> o2[i] in bpi
    requires multiset(o1) == multiset(o2)
    ensures multiset(CurrencyInfos(bpi, currencyMap, o1)) == multiset(CurrencyInfos(bpi, currencyMap, o2))
    decreases |o1|
  {
    if o1 == [] {
      assert |o2| == |multiset(o2)| == 0;
    } else {
      assert o1[0] in multiset(o2);
      var j :| 0 <= j < |o2| && o2[j] == o1[0];
      var rest := o2[..j] + o2[j + 1..];
      SameRest(o1, o2, j);
      MoveToFront(bpi, currencyMap, o2, j);
      CurrencyInfosPermute(bpi, currencyMap, o1[1..], rest);
      PermuteStep(bpi, currencyMap, o1, o2, j, rest);
    }
  }

  /** A sequence without repeats holds each of its elements once. */
  lemma {:induction false} DistinctMultiset(order: seq<string>, x: string)
    requires forall i, j :: 0 <= i < j < |order| ==> order[i] != order[j]
    ensures multiset(order)[x] == if x in order then 1 else 0
  {
    if order != [] {
      var rest := order[1..];
      assert order == [order[0]] + rest;
      DistinctMultiset(rest, x);
      if x == order[0] {
        assert x !in rest by {
          forall i | 0 <= i < |rest| ensures rest[i] != order[0] {
            assert rest[i] == order[i + 1];
          }
        }
      }
    }
  }

  /** Whatever order the HashMap yields, the response holds the same entries, each as
      often, and the same time. */
  lemma ResponseIndependentOfOrder(originalData: CoinDeskResponse, currencyMap: map<string, Currency>, o1: seq<string>, o2: seq<string>)
    requires originalData.bpi.Some? ==> Enumerates(o1, originalData.bpi.value) && Enumerates(o2, originalData.bpi.value)
    ensures var r1 := ToTransformedResponse(originalData, currencyMap, o1);
      var r2 := ToTransformedResponse(originalData, currencyMap, o2);
      r1.updatedTime == r2.updatedTime && multiset(r1.currencyInfo) == multiset(r2.currencyInfo)
  {
    if originalData.bpi.Some? {
      var bpi := originalData.bpi.value;
      forall x ensures multiset(o1)[x] == multiset(o2)[x] {
        DistinctMultiset(o1, x);
        DistinctMultiset(o2, x);
      }
      assert multiset(o1) == multiset(o2);
      CurrencyInfosPermute(bpi, currencyMap, o1, o2);
    }
  }

  /** No time block, or one without `updatedISO`: the time is "N/A". */
  lemma MissingTimeIsNotAvailable(originalData: CoinDeskResponse, currencyMap: map<string, Currency>, order: seq<string>)
    requires originalData.bpi.Some? ==> Enumerates(order, originalData.bpi.value)
    requires originalData.time.None? || originalData.time.value.updatedISO.None?
    ensures ToTransformedResponse(originalData, currencyMap, order).updatedTime == Some(NotAvailable)
  {
  }

  /** A time that does not parse is echoed, not raised. */
  lemma UnparsableTimeIsEchoed(originalData: CoinDeskResponse, currencyMap: map<string, Currency>, order: seq<string>, iso: string)
    requires originalData.bpi.Some? ==> Enumerates(order, originalData.bpi.value)
    requires originalData.time.Some? && originalData.time.value.updatedISO == Some(iso)
    requires IsoDateTime.Parse(iso).None?
    ensures ToTransformedResponse(originalData, currencyMap, order).updatedTime == Some(iso)
  {
  }

  /** A time that parses is shown as its own local fields, year of era first, in the
      output pattern's positions. */
  lemma ParsedTimeIsReformatted(originalData: CoinDeskResponse, currencyMap: map<string, Currency>, order: seq<string>, iso: string)
    requires originalData.bpi.Some? ==> Enumerates(order, originalData.bpi.value)
    requires originalData.time.Some? && originalData.time.value.updatedISO == Some(iso)
    requires IsoDateTime.Parse(iso).Some?
    ensures var shown := ToTransformedResponse(originalData, currencyMap, order).updatedTime;
      var t := IsoDateTime.Parse(iso).value.local;
      && shown.Some? && IsoDateTime.DisplayShape(shown.value)
      && IsoDateTime.NumberAt(shown.value, 0, 4) == IsoDateTime.YearOfEra(t.year)
      && IsoDateTime.NumberAt(shown.value, 5, 2) == t.month
      && IsoDateTime.NumberAt(shown.value, 8, 2) == t.day
      && IsoDateTime.NumberAt(shown.value, 11, 2) == t.hour
      && IsoDateTime.NumberAt(shown.value, 14, 2) == t.minute
      && IsoDateTime.NumberAt(shown.value, 17, 2) == t.second
  {
  }

  lemma NotADateIsEchoed()
    ensures FormatUpdatedTime("not-a-date") == "not-a-date"
  {
  }

  /** A whole-second ISO 8601 time is shown as `yyyy/MM/dd HH:mm:ss` in its own offset. */
  lemma CanonicalTimeIsReformatted(z: IsoDateTime.ZonedDateTime)
    requires IsoDateTime.CanonicalIso(z)
    ensures FormatUpdatedTime(IsoDateTime.ToIso(z)) == IsoDateTime.Format(z)
  {
    IsoDateTime.ParseToIso(z);
  }

  /** The sample instant, 2024-09-02 07:07:20, at a given whole-minute offset. */
  function SampleTime(offsetSeconds: int): IsoDateTime.ZonedDateTime {
    IsoDateTime.ZonedDateTime(IsoDateTime.LocalDateTime(2024, 9, 2, 7, 7, 20, 0), offsetSeconds)
  }

  lemma SampleShown(offsetSeconds: int)
    requires -IsoDateTime.MaxOffsetSeconds <= offsetSeconds <= IsoDateTime.MaxOffsetSeconds
    ensures IsoDateTime.Format(SampleTime(offsetSeconds)) == "2024/09/02 07:07:20"
  {
    assert IsoDateTime.DatePart(2024, 9, 2) == "2024/09/02";
    assert IsoDateTime.TimePart(7, 7, 20) == "07:07:20";
  }

  lemma SampleUtcIsReformatted()
    ensures FormatUpdatedTime("2024-09-02T07:07:20+00:00") == "2024/09/02 07:07:20"
  {
    assert IsoDateTime.ToIso(SampleTime(0)) == "2024-09-02T07:07:20+00:00";
    SampleShown(0);
    CanonicalTimeIsReformatted(SampleTime(0));
  }

  lemma SampleWestIsReformatted()
    ensures FormatUpdatedTime("2024-09-02T07:07:20-05:30") == "2024/09/02 07:07:20"
  {
    var offset := -(5 * 3600 + 30 * 60);
    assert IsoDateTime.ToIso(SampleTime(offset)) == "2024-09-02T07:07:20-05:30";
    SampleShown(offset);
    CanonicalTimeIsReformatted(SampleTime(offset));
  }

  lemma SampleTimeIsReformatted()
    ensures FormatUpdatedTime("2024-09-02T07:07:20+00:00") == "2024/09/02 07:07:20"
    ensures FormatUpdatedTime("2024-09-02T07:07:20-05:30") == "2024/09/02 07:07:20"
  {
    SampleUtcIsReformatted();
    SampleWestIsReformatted();
  }
}
