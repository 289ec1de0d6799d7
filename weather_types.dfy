/**
 * The weather record of types.ts and the two kinds of thrown values the
 * application distinguishes.
 */
module WeatherTypes {
  import opened Wrappers

  /** A JavaScript number, kept opaque: it is represented by its canonical
      `String(x)` rendering ("18", "-0.5", "NaN", ...), which is all the
      application ever does with one. */
  datatype JsNumber = JsNumber(text: string)

  /** One city's current weather (types.ts `WeatherData`). `cityImageUrl` is
      an optional property of type `string | null`: `None` is "absent",
      `Some(None)` is `null`. */
  datatype WeatherData = WeatherData(
    city: string,
    temperatureCelsius: JsNumber,
    temperatureFahrenheit: JsNumber,
    condition: string,
    conditionDescription: string,
    humidityPercent: JsNumber,
    windSpeedKph: JsNumber,
    windDirection: string,
    pressureMb: JsNumber,
    visibilityKm: JsNumber,
    sunriseISO: string,
    sunsetISO: string,
    iconIdentifier: string,
    feelsLikeCelsius: JsNumber,
    uvIndex: JsNumber,
    cityImageUrl: Option<Option<string>>)

  /** What a `catch` clause receives: an `Error` instance with its `message`,
      or any other thrown value. */
  datatype Thrown = ErrorValue(message: string) | NonErrorValue
}
