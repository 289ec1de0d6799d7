/**
 * The search-history store of App.tsx: a recency-ordered list of weather
 * records, at most one per city (compared case-insensitively), capped at
 * MAX_HISTORY_ITEMS entries.
 */
module SearchHistory {
  import opened JsString
  import opened WeatherTypes

  /** MAX_HISTORY_ITEMS */
  const MaxHistoryItems: nat := 6

  /** The city comparison `a.toLowerCase() === b.toLowerCase()`. */
  predicate SameCity(a: string, b: string) {
    ToLowerCase(a) == ToLowerCase(b)
  }

  ghost predicate HasMatch(items: seq<WeatherData>, city: string) {
    exists i :: 0 <= i < |items| && SameCity(items[i].city, city)
  }

  /** `i` is the index `findIndex` reports: the first entry for `city`. */
  ghost predicate IsFirstMatch(items: seq<WeatherData>, city: string, i: int) {
    && 0 <= i < |items|
    && SameCity(items[i].city, city)
    && forall j :: 0 <= j < i ==> !SameCity(items[j].city, city)
  }

  /** No two entries name the same city, case-insensitively. */
  ghost predicate DistinctCities(items: seq<WeatherData>) {
    forall i, j :: 0 <= i < j < |items| ==> !SameCity(items[i].city, items[j].city)
  }

  function Min(a: int, b: int): int {
    if a <= b then a else b
  }

  /** `s.slice(0, n)`, applied only when `s` is longer than `n`, as the
      source does. */
  function Take<T>(s: seq<T>, n: nat): (r: seq<T>)
    ensures |r| == Min(|s|, n) && r == s[..|r|]
  {
    if |s| > n then s[..n] else s
  }

  /** The list without its first entry for `city`: the reference definition
      of `findIndex` followed by `splice(existingIndex, 1)`. */
  function RemoveFirstMatch(items: seq<WeatherData>, city: string): (r: seq<WeatherData>)
    ensures !HasMatch(items, city) ==> r == items
    ensures |r| == if HasMatch(items, city) then |items| - 1 else |items|
    ensures forall x :: x in r ==> x in items
  {
    if items == [] then []
    else if SameCity(items[0].city, city) then items[1..]
    else
      var rest := RemoveFirstMatch(items[1..], city);
      assert HasMatch(items, city) ==> HasMatch(items[1..], city) by {
        if HasMatch(items, city) {
          var k :| 0 <= k < |items| && SameCity(items[k].city, city);
          assert items[1..][k - 1] == items[k];
        }
      }
      [items[0]] + rest
  }

  /** Exactly the first entry for `city` is spliced out; everything else
      keeps its place. */
  lemma {:induction false} RemoveFirstMatchSplices(items: seq<WeatherData>, city: string, i: int)
    requires IsFirstMatch(items, city, i)
    ensures RemoveFirstMatch(items, city) == items[..i] + items[i + 1..]
  {
    if i == 0 {
      assert items[..0] + items[1..] == items[1..];
    } else {
      assert IsFirstMatch(items[1..], city, i - 1) by {
        forall j | 0 <= j < i - 1 ensures !SameCity(items[1..][j].city, city) {
          assert items[1..][j] == items[j + 1];
        }
      }
      RemoveFirstMatchSplices(items[1..], city, i - 1);
      assert items[..i] == [items[0]] + items[1..][..i - 1];
      assert items[i + 1..] == items[1..][i..];
    }
  }

  /** The new history after a successful search for `data`: the record at
      the front, its city's previous entry (if any) removed, then cut to
      MAX_HISTORY_ITEMS. */
  function Upserted(prev: seq<WeatherData>, data: WeatherData): (r: seq<WeatherData>)
    ensures |r| > 0 && r[0] == data
    ensures |r| <= MaxHistoryItems
    ensures !HasMatch(prev, data.city) ==> |r| == Min(|prev| + 1, MaxHistoryItems)
    ensures HasMatch(prev, data.city) ==> |r| == Min(|prev|, MaxHistoryItems)
  {
    Take([data] + RemoveFirstMatch(prev, data.city), MaxHistoryItems)
  }

  /** Removing one entry keeps the cities distinct, and when the cities were
      distinct no entry for `city` is left. */
  lemma {:induction false} RemoveFirstMatchDistinct(items: seq<WeatherData>, city: string)
    requires DistinctCities(items)
    ensures DistinctCities(RemoveFirstMatch(items, city))
    ensures forall x :: x in RemoveFirstMatch(items, city) ==> !SameCity(x.city, city)
  {
    if items == [] {
    } else if SameCity(items[0].city, city) {
      assert forall j :: 1 <= j < |items| ==> !SameCity(items[j].city, city);
    } else {
      var rest := RemoveFirstMatch(items[1..], city);
      assert DistinctCities(items[1..]);
      RemoveFirstMatchDistinct(items[1..], city);
      forall x | x in rest ensures !SameCity(items[0].city, x.city) {
        var j :| 0 <= j < |items[1..]| && items[1..][j] == x;
        assert items[j + 1] == x;
      }
    }
  }

  /** An upsert keeps the history free of duplicate cities. */
  lemma UpsertKeepsCitiesDistinct(prev: seq<WeatherData>, data: WeatherData)
    requires DistinctCities(prev)
    ensures DistinctCities(Upserted(prev, data))
  {
    var rest := RemoveFirstMatch(prev, data.city);
    RemoveFirstMatchDistinct(prev, data.city);
    assert forall j :: 0 <= j < |rest| ==> rest[j] in rest;
    assert DistinctCities([data] + rest);
  }

  /** After an upsert into a history without duplicates, the new record is
      the only entry for its city: older payloads for it are gone. */
  lemma UpsertReplacesCityEntry(prev: seq<WeatherData>, data: WeatherData)
    requires DistinctCities(prev)
    ensures forall j :: 1 <= j < |Upserted(prev, data)| ==> !SameCity(Upserted(prev, data)[j].city, data.city)
  {
    UpsertKeepsCitiesDistinct(prev, data);
  }

  /** Upserting the same record twice gives the history of upserting it once. */
  lemma UpsertIdempotent(prev: seq<WeatherData>, data: WeatherData)
    ensures Upserted(Upserted(prev, data), data) == Upserted(prev, data)
  {
    var once := Upserted(prev, data);
    assert RemoveFirstMatch(once, data.city) == once[1..];
    assert [data] + once[1..] == once;
  }

  /** Entries other than the first one for the new city keep their relative
      order: the result is the new record followed by the old history with
      that one entry spliced out, cut to MAX_HISTORY_ITEMS. */
  lemma UpsertKeepsOrder(prev: seq<WeatherData>, data: WeatherData, i: int)
    requires IsFirstMatch(prev, data.city, i)
    ensures Upserted(prev, data) == Take([data] + prev[..i] + prev[i + 1..], MaxHistoryItems)
  {
    RemoveFirstMatchSplices(prev, data.city, i);
    assert [data] + (prev[..i] + prev[i + 1..]) == [data] + prev[..i] + prev[i + 1..];
  }

  /** A new city pushed onto a full history evicts the oldest entry. */
  lemma UpsertEvictsOldest(prev: seq<WeatherData>, data: WeatherData)
    requires |prev| == MaxHistoryItems && !HasMatch(prev, data.city)
    ensures Upserted(prev, data) == [data] + prev[..MaxHistoryItems - 1]
  {
  }

  /** London, then Paris, then London again with new data gives
      [London (new), Paris]. */
  lemma LondonParisLondon(london: WeatherData, paris: WeatherData, londonAgain: WeatherData)
    requires london.city == "London" && paris.city == "Paris" && londonAgain.city == "London"
    ensures Upserted(Upserted(Upserted([], london), paris), londonAgain) == [londonAgain, paris]
  {
    assert !SameCity("London", "Paris");
    assert Upserted([], london) == [london];
    assert RemoveFirstMatch([london], "Paris") == [london];
    assert Upserted([london], paris) == [paris, london];
    assert RemoveFirstMatch([paris, london], "London") == [paris];
  }

  /** The `findIndex` loop: the index of the first entry for `city`, or -1. */
  method FindIndex(items: seq<WeatherData>, city: string) returns (index: int)
    ensures -1 <= index < |items|
    ensures index == -1 <==> !HasMatch(items, city)
    ensures index != -1 ==> IsFirstMatch(items, city, index)
  {
    var target := ToLowerCase(city);
    var i := 0;
    while i < |items|
      invariant 0 <= i <= |items|
      invariant forall j :: 0 <= j < i ==> !SameCity(items[j].city, city)
    {
      if ToLowerCase(items[i].city) == target {
        return i;
      }
      i := i + 1;
    }
    return -1;
  }

  /** The `searchHistory` state with its functional update. */
  class SearchHistoryStore {
    var items: seq<WeatherData>

    constructor (initial: seq<WeatherData>)
      ensures items == initial
    {
      items := initial;
    }

    /** App.tsx's history update: copy, splice out the existing entry for the
        city, unshift the new record, cut to MAX_HISTORY_ITEMS. */
    method Upsert(data: WeatherData)
      modifies this
      ensures items == Upserted(old(items), data)
    {
      var existingIndex := FindIndex(items, data.city);
      var newHistory := items;
      if existingIndex > -1 {
        RemoveFirstMatchSplices(items, data.city, existingIndex);
        newHistory := newHistory[..existingIndex] + newHistory[existingIndex + 1..];
      }
      newHistory := [data] + newHistory;
      if |newHistory| > MaxHistoryItems {
        newHistory := newHistory[..MaxHistoryItems];
      }
      items := newHistory;
    }
  }
}
