/**
 * App.tsx: the theme preference and the search history restored at start-up
 * and persisted after every change, the search transition driven by
 * `handleSearch`, the background palette, and the "other searches" view.
 */
module App {
  import opened Wrappers
  import opened JsString
  import opened WeatherTypes
  import opened SearchHistory
  import GeminiService

  const ThemeKey: string := "weatherAppTheme"
  const HistoryKey: string := "weatherAppHistory"
  const Light: string := "light"
  const Dark: string := "dark"

  const BlankInputMessage: string := "Please enter a city name."
  const UnknownErrorMessage: string := "An unknown error occurred."

  const NightPalette: string := "from-slate-800 to-indigo-900"
  const StormPalette: string := "from-slate-500 to-slate-700"
  const SnowPalette: string := "from-sky-200 to-slate-400"
  const FogPalette: string := "from-gray-400 to-gray-600"
  const DayPalette: string := "from-sky-400 to-blue-600"
  const DarkIdlePalette: string := "from-slate-700 to-slate-900"

  /** `localStorage.getItem(key)`: the stored string, or `None` for null. */
  function Lookup(storage: map<string, string>, key: string): Option<string> {
    if key in storage then Some(storage[key]) else None
  }

  // ---------------------------------------------------------------------
  // Theme
  // ---------------------------------------------------------------------

  /** The initial theme: a stored non-empty string is taken as it is (the
      cast to 'light' | 'dark' is not checked), otherwise 'light'. */
  function RestoredTheme(stored: Option<string>): (theme: string)
    ensures theme != ""
    ensures stored.Some? && stored.value != "" ==> theme == stored.value
    ensures stored.None? || stored == Some("") ==> theme == Light
  {
    if stored.Some? && stored.value != "" then stored.value else Light
  }

  /** `toggleTheme`'s updater. */
  function Toggled(theme: string): (r: string)
    ensures r == Light || r == Dark
    ensures r != theme
  {
    if theme == Light then Dark else Light
  }

  /** Toggling twice restores light or dark. */
  lemma ToggleTwiceRestores(theme: string)
    requires theme == Light || theme == Dark
    ensures Toggled(Toggled(theme)) == theme
  {
  }

  /** A theme written by the app is read back unchanged on the next start,
      and one toggle of a restored unknown theme gives 'light'... */
  lemma ThemeSurvivesReload(theme: string)
    requires theme != ""
    ensures RestoredTheme(Some(theme)) == theme
    ensures theme != Light && theme != Dark ==> Toggled(RestoredTheme(Some(theme))) == Light
  {
  }

  // ---------------------------------------------------------------------
  // History restore
  // ---------------------------------------------------------------------

  /** The initial history: the decoded stored value, or [] when nothing is
      stored, the stored string is empty, or it does not decode. `decode`
      stands for `JSON.parse` followed by the unchecked cast. */
  function RestoredHistory(stored: Option<string>, decode: string -> Option<seq<WeatherData>>): (h: seq<WeatherData>)
    ensures stored.None? || stored == Some("") ==> h == []
    ensures stored.Some? && decode(stored.value).None? ==> h == []
  {
    if stored.Some? && stored.value != "" then
      match decode(stored.value)
      case Some(items) => items
      case None => []
    else []
  }

  /** A history persisted by the app comes back on the next start when
      decoding undoes encoding. */
  lemma HistorySurvivesReload(items: seq<WeatherData>, encode: seq<WeatherData> -> string,
                              decode: string -> Option<seq<WeatherData>>)
    requires encode(items) != "" && decode(encode(items)) == Some(items)
    ensures RestoredHistory(Some(encode(items)), decode) == items
  {
  }

  // ---------------------------------------------------------------------
  // Background
  // ---------------------------------------------------------------------

  /** Lines 98-117: the palette for the displayed weather, the first matching
      substring test winning; without weather data, by theme. */
  function Background(weatherData: Option<WeatherData>, theme: string): string {
    if weatherData.Some? then
      var iconId := ToLowerCase(weatherData.value.iconIdentifier);
      if Includes(iconId, "night") then NightPalette
      else if Includes(iconId, "rain") || Includes(iconId, "thunderstorm") then StormPalette
      else if Includes(iconId, "snow") then SnowPalette
      else if Includes(iconId, "fog") then FogPalette
      else if Includes(iconId, "clear") || Includes(iconId, "sun") then DayPalette
      else DayPalette
    else if theme == Dark then DarkIdlePalette
    else DayPalette
  }

  /** None of the four keywords that pick a weather palette. */
  ghost predicate NoPaletteKeyword(iconId: string) {
    && !Includes(iconId, "night") && !Includes(iconId, "rain") && !Includes(iconId, "thunderstorm")
    && !Includes(iconId, "snow") && !Includes(iconId, "fog")
  }

  /** With weather data the theme plays no part; without it only the theme
      does (the idle theme palettes are the body's own case split and need
      no lemma). The clear/sun test changes nothing: every identifier without a
      palette keyword gets the day palette. */
  lemma BackgroundDependencies(w: WeatherData, theme: string, otherTheme: string)
    ensures Background(Some(w), theme) == Background(Some(w), otherTheme)
    ensures NoPaletteKeyword(ToLowerCase(w.iconIdentifier)) ==> Background(Some(w), theme) == DayPalette
  {
  }

  /** An upper-case NIGHT in the identifier is a "night" once lower-cased. */
  lemma NightInIdentifier(id: string, k: nat)
    requires k + 5 <= |id| && id[k..k + 5] == "NIGHT"
    ensures Includes(ToLowerCase(id), "night")
  {
    var low := ToLowerCase(id);
    assert low[k..k + 5] == "night" by {
      forall j | 0 <= j < 5
        ensures low[k..k + 5][j] == "night"[j]
      {
        assert id[k + j] == "NIGHT"[j];
      }
    }
    assert OccursAt(low, "night", k);
  }

  /** The night test comes first: CLEAR_NIGHT gets the night palette even
      though it also contains "clear", and PARTLY_CLOUDY_NIGHT and
      SHOWERS_NIGHT get it too. */
  lemma NightIdentifiersBackground(w: WeatherData, theme: string)
    requires w.iconIdentifier in {"CLEAR_NIGHT", "PARTLY_CLOUDY_NIGHT", "SHOWERS_NIGHT"}
    ensures Background(Some(w), theme) == NightPalette
  {
    var id := w.iconIdentifier;
    if id == "CLEAR_NIGHT" {
      NightInIdentifier(id, 6);
    } else if id == "PARTLY_CLOUDY_NIGHT" {
      NightInIdentifier(id, 14);
    } else {
      NightInIdentifier(id, 8);
    }
  }

  /** RAIN and THUNDERSTORM get the storm palette. */
  lemma StormIdentifiersBackground(w: WeatherData, theme: string)
    requires w.iconIdentifier in {"RAIN", "THUNDERSTORM"}
    ensures Background(Some(w), theme) == StormPalette
  {
    if w.iconIdentifier == "RAIN" {
      assert ToLowerCase("RAIN") == "rain";
      LacksCharacter("rain", "night", 'g');
      assert OccursAt("rain", "rain", 0);
    } else {
      assert ToLowerCase("THUNDERSTORM") == "thunderstorm";
      LacksCharacter("thunderstorm", "night", 'i');
      assert OccursAt("thunderstorm", "thunderstorm", 0);
    }
  }

  /** SNOW and FOG get their own palettes. */
  lemma SnowAndFogBackground(w: WeatherData, theme: string)
    requires w.iconIdentifier in {"SNOW", "FOG"}
    ensures w.iconIdentifier == "SNOW" ==> Background(Some(w), theme) == SnowPalette
    ensures w.iconIdentifier == "FOG" ==> Background(Some(w), theme) == FogPalette
  {
    if w.iconIdentifier == "SNOW" {
      assert ToLowerCase("SNOW") == "snow";
      LacksCharacter("snow", "night", 'i');
      LacksCharacter("snow", "rain", 'r');
      LacksCharacter("snow", "thunderstorm", 't');
      assert OccursAt("snow", "snow", 0);
    } else {
      assert ToLowerCase("FOG") == "fog";
      LacksCharacter("fog", "night", 'n');
      LacksCharacter("fog", "rain", 'r');
      LacksCharacter("fog", "thunderstorm", 't');
      LacksCharacter("fog", "snow", 's');
      assert OccursAt("fog", "fog", 0);
    }
  }

  /** Every keyword but "fog" contains an 'n', so an identifier without 'n'
      and 'f' contains none of them. */
  lemma NoKeywordWithoutNOrF(iconId: string)
    requires 'n' !in iconId && 'f' !in iconId
    ensures NoPaletteKeyword(iconId)
  {
    LacksCharacter(iconId, "night", 'n');
    LacksCharacter(iconId, "rain", 'n');
    LacksCharacter(iconId, "thunderstorm", 'n');
    LacksCharacter(iconId, "snow", 'n');
    LacksCharacter(iconId, "fog", 'f');
  }

  /** Every identifier without the letters N and F, in either case, gets
      the day palette: it contains none of the keywords. */
  lemma NoNOrFMeansDayPalette(w: WeatherData, theme: string)
    requires var id := w.iconIdentifier; 'n' !in id && 'N' !in id && 'f' !in id && 'F' !in id
    ensures Background(Some(w), theme) == DayPalette
  {
    var id := w.iconIdentifier;
    var low := ToLowerCase(id);
    forall k | 0 <= k < |id| ensures low[k] != 'n' && low[k] != 'f' {
      assert id[k] != 'n' && id[k] != 'N' && id[k] != 'f' && id[k] != 'F';
    }
    NoKeywordWithoutNOrF(low);
    BackgroundDependencies(w, theme, theme);
  }

  /** "windy" has an 'n' but no 'o', 't' or 'r'. */
  lemma WindyLacksKeywords()
    ensures NoPaletteKeyword(ToLowerCase("WINDY"))
  {
    assert ToLowerCase("WINDY") == "windy";
    LacksCharacter("windy", "night", 't');
    LacksCharacter("windy", "rain", 'r');
    LacksCharacter("windy", "thunderstorm", 'o');
    LacksCharacter("windy", "snow", 'o');
    LacksCharacter("windy", "fog", 'o');
  }

  /** CLEAR_DAY, CLOUDY and SHOWERS_DAY get the day palette: the rain of
      the showers does not count, since "showers" does not contain "rain". */
  lemma DayIdentifiersBackground(w: WeatherData, theme: string)
    requires w.iconIdentifier in {"CLEAR_DAY", "CLOUDY", "SHOWERS_DAY"}
    ensures Background(Some(w), theme) == DayPalette
  {
    NoNOrFMeansDayPalette(w, theme);
  }

  /** PARTLY_CLOUDY_DAY and WINDY get the day palette too. */
  lemma PartlyCloudyAndWindyBackground(w: WeatherData, theme: string)
    requires w.iconIdentifier in {"PARTLY_CLOUDY_DAY", "WINDY"}
    ensures Background(Some(w), theme) == DayPalette
  {
    if w.iconIdentifier == "WINDY" {
      WindyLacksKeywords();
      BackgroundDependencies(w, theme, theme);
    } else {
      var a, b := "PARTLY_", "CLOUDY_DAY";
      assert w.iconIdentifier == a + b;
      assert 'n' !in a && 'N' !in a && 'f' !in a && 'F' !in a;
      assert 'n' !in b && 'N' !in b && 'f' !in b && 'F' !in b;
      NoNOrFMeansDayPalette(w, theme);
    }
  }

  // ---------------------------------------------------------------------
  // The "other searches" view
  // ---------------------------------------------------------------------

  /** `a` can be obtained from `b` by deleting entries. */
  ghost predicate IsSubsequence<T>(a: seq<T>, b: seq<T>)
    decreases |b|
  {
    a == [] || (b != [] && ((a[0] == b[0] && IsSubsequence(a[1..], b[1..])) || IsSubsequence(a, b[1..])))
  }

  lemma {:induction false} PrefixOfSubsequence<T>(a: seq<T>, b: seq<T>, n: nat)
    requires IsSubsequence(a, b) && n <= |a|
    ensures IsSubsequence(a[..n], b)
    decreases |b|
  {
    if n == 0 || a == [] {
    } else if a[0] == b[0] && IsSubsequence(a[1..], b[1..]) {
      PrefixOfSubsequence(a[1..], b[1..], n - 1);
      assert a[..n][1..] == a[1..][..n - 1];
    } else {
      PrefixOfSubsequence(a, b[1..], n);
    }
  }

  /** `filter(item => item.city.toLowerCase() !== city.toLowerCase())`. */
  function WithoutCity(items: seq<WeatherData>, city: string): (r: seq<WeatherData>)
    ensures forall x :: x in r ==> x in items && !SameCity(x.city, city)
    ensures forall x :: x in items && !SameCity(x.city, city) ==> x in r
    ensures IsSubsequence(r, items)
  {
    if items == [] then []
    else if SameCity(items[0].city, city) then
      var rest := WithoutCity(items[1..], city);
      assert rest == [] || rest[0] != items[0];
      rest
    else [items[0]] + WithoutCity(items[1..], city)
  }

  /** The filter keeps every copy of an entry of another city and drops
      every copy of an entry of this one. */
  lemma {:induction false} WithoutCityKeepsCopies(items: seq<WeatherData>, city: string)
    ensures forall x :: multiset(WithoutCity(items, city))[x] ==
                          if SameCity(x.city, city) then 0 else multiset(items)[x]
  {
    if items != [] {
      WithoutCityKeepsCopies(items[1..], city);
      assert items == [items[0]] + items[1..];
    }
  }

  /** Lines 168-170: the history without the displayed city, cut to
      MAX_HISTORY_ITEMS, in history order. */
  function OtherSearches(history: seq<WeatherData>, current: WeatherData): (r: seq<WeatherData>)
    ensures |r| <= MaxHistoryItems
    ensures |r| == Min(|WithoutCity(history, current.city)|, MaxHistoryItems)
    ensures r == WithoutCity(history, current.city)[..|r|]
    ensures forall x :: x in r ==> x in history && !SameCity(x.city, current.city)
    ensures IsSubsequence(r, history)
    ensures |WithoutCity(history, current.city)| <= MaxHistoryItems ==>
              forall x :: x in history && !SameCity(x.city, current.city) ==> x in r
  {
    var kept := WithoutCity(history, current.city);
    PrefixOfSubsequence(kept, history, |Take(kept, MaxHistoryItems)|);
    Take(kept, MaxHistoryItems)
  }

  // ---------------------------------------------------------------------
  // The search transition
  // ---------------------------------------------------------------------

  /** What the `catch` of `handleSearch` shows. */
  function ErrorMessage(t: Thrown): string {
    match t
    case ErrorValue(message) => message
    case NonErrorValue => UnknownErrorMessage
  }

  /** The service only ever rejects with an Error, so a failed search never
      shows the app's fallback message. */
  lemma ServiceFailureNeverUnknown(requestedCity: string, apiKey: Option<string>,
                                   response: Result<string, Thrown>,
                                   parse: string -> Result<GeminiService.JsonValue, string>)
    requires GeminiService.FetchOutcome(requestedCity, apiKey, response, parse).Failure?
    ensures var t := GeminiService.FetchOutcome(requestedCity, apiKey, response, parse).error;
            t.ErrorValue? && ErrorMessage(t) == t.message && ErrorMessage(t) != UnknownErrorMessage
  {
    GeminiService.FailuresAreErrors(requestedCity, apiKey, response, parse);
    var m := GeminiService.FetchOutcome(requestedCity, apiKey, response, parse).error.message;
    assert |GeminiService.UnexpectedMessage| != |UnknownErrorMessage|;
    assert GeminiService.MissingKeyMessage[0] != UnknownErrorMessage[0];
    assert GeminiService.StartsWith(m, GeminiService.RequestFailedPrefix) ==> m[0] == 'G';
  }

  /** The state of the App component. `storage` is localStorage; the
      effects of lines 40-51 are folded into the methods that change the
      state they watch. */
  class AppState {
    var weatherData: Option<WeatherData>
    var isLoading: bool
    var error: Option<string>
    var theme: string
    const history: SearchHistoryStore
    var storage: map<string, string>
    /** `JSON.stringify` on a history. */
    const encode: seq<WeatherData> -> string

    /** localStorage holds the current theme and history. */
    ghost predicate Persisted()
      reads this, history
    {
      && ThemeKey in storage && storage[ThemeKey] == theme
      && HistoryKey in storage && storage[HistoryKey] == encode(history.items)
    }

    /** Start-up: restore theme and history, then the two effects write
        them back. */
    constructor (stored: map<string, string>, decode: string -> Option<seq<WeatherData>>,
                 encode: seq<WeatherData> -> string)
      ensures theme == RestoredTheme(Lookup(stored, ThemeKey))
      ensures history.items == RestoredHistory(Lookup(stored, HistoryKey), decode)
      ensures weatherData.None? && !isLoading && error.None?
      ensures this.encode == encode
      ensures storage == stored[ThemeKey := theme][HistoryKey := encode(history.items)]
      ensures Persisted() && fresh(history)
    {
      var restoredTheme := RestoredTheme(Lookup(stored, ThemeKey));
      var restoredHistory := RestoredHistory(Lookup(stored, HistoryKey), decode);
      weatherData := None;
      isLoading := false;
      error := None;
      theme := restoredTheme;
      history := new SearchHistoryStore(restoredHistory);
      this.encode := encode;
      storage := stored[ThemeKey := restoredTheme][HistoryKey := encode(restoredHistory)];
    }

    /** `toggleTheme`, then the theme effect persists the new theme. */
    method ToggleTheme()
      requires Persisted()
      modifies this
      ensures theme == Toggled(old(theme))
      ensures storage == old(storage)[ThemeKey := theme]
      ensures weatherData == old(weatherData) && isLoading == old(isLoading) && error == old(error)
      ensures Persisted()
    {
      theme := Toggled(theme);
      storage := storage[ThemeKey := theme];
    }

    /** Lines 58-66: the blank-input guard, or the busy phase. */
    method BeginSearch(searchedCity: string) returns (proceed: bool)
      modifies this
      ensures proceed <==> Trim(searchedCity) != ""
      ensures !proceed ==> && error == Some(BlankInputMessage) && weatherData.None?
                           && isLoading == old(isLoading)
      ensures proceed ==> isLoading && error.None? && weatherData.None?
      ensures theme == old(theme) && storage == old(storage)
    {
      var trimmed := Trim(searchedCity);
      proceed := trimmed != "";
      if !proceed {
        error := Some(BlankInputMessage);
        weatherData := None;
      } else {
        isLoading := true;
        error := None;
        weatherData := None;
      }
    }

    /** Lines 68-95: the awaited outcome of `getWeatherForCity` either shows
        the record and upserts it into the history (whose effect persists
        it), or shows the error; the busy phase ends either way. */
    method CompleteSearch(fetched: Result<WeatherData, Thrown>)
      requires Persisted()
      modifies this, history
      ensures !isLoading && theme == old(theme)
      ensures fetched.Success? ==>
                && weatherData == Some(fetched.value) && error == old(error)
                && history.items == Upserted(old(history.items), fetched.value)
                && storage == old(storage)[HistoryKey := encode(history.items)]
      ensures fetched.Failure? ==>
                && weatherData.None? && error == Some(ErrorMessage(fetched.error))
                && history.items == old(history.items) && storage == old(storage)
      ensures Persisted()
    {
      if fetched.Success? {
        weatherData := Some(fetched.value);
        history.Upsert(fetched.value);
        storage := storage[HistoryKey := encode(history.items)];
      } else {
        error := Some(ErrorMessage(fetched.error));
        weatherData := None;
      }
      isLoading := false;
    }

    /** `handleSearch(searchedCity)` as one sequential transition. `fetch`
        stands for `getWeatherForCity`; `requested` is the city it was
        called with, `None` when it was not called. */
    method HandleSearch(searchedCity: string, fetch: string -> Result<WeatherData, Thrown>)
      returns (requested: Option<string>)
      requires Persisted()
      modifies this, history
      ensures requested.Some? <==> Trim(searchedCity) != ""
      ensures requested.Some? ==> requested.value == searchedCity
      ensures requested.None? ==>
                && error == Some(BlankInputMessage) && weatherData.None?
                && isLoading == old(isLoading)
                && history.items == old(history.items) && storage == old(storage)
      ensures requested.Some? && fetch(searchedCity).Success? ==>
                && weatherData == Some(fetch(searchedCity).value) && error.None? && !isLoading
                && history.items == Upserted(old(history.items), fetch(searchedCity).value)
                && storage == old(storage)[HistoryKey := encode(history.items)]
      ensures requested.Some? && fetch(searchedCity).Failure? ==>
                && weatherData.None? && error == Some(ErrorMessage(fetch(searchedCity).error))
                && !isLoading
                && history.items == old(history.items) && storage == old(storage)
      ensures theme == old(theme) && Persisted()
    {
      var proceed := BeginSearch(searchedCity);
      if !proceed {
        return None;
      }
      var fetched := fetch(searchedCity);
      CompleteSearch(fetched);
      return Some(searchedCity);
    }
  }
}
