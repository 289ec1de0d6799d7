/**
 * components/WeatherIcon.tsx: the icon identifier, upper-cased, selects one
 * of the glyphs and its colour class; every other identifier gets the
 * fallback glyph.
 */
module WeatherIcon {
  import opened Wrappers
  import opened JsString

  /** The SVG drawings of the component, by what they show. */
  datatype Glyph =
    | Sun | Moon | Cloud | SunBehindCloud | MoonBehindCloud | RainCloud
    | Snowflake | Wind | FogLines | Lightning | Fallback

  /** What the component renders: a glyph and its `className`. */
  datatype Rendered = Rendered(glyph: Glyph, className: string)

  /** The identifiers the component knows, in upper case. */
  const KnownIdentifiers: set<string> := {
    "CLEAR_DAY", "CLEAR_NIGHT", "CLOUDY", "PARTLY_CLOUDY_DAY", "PARTLY_CLOUDY_NIGHT",
    "RAIN", "SHOWERS_DAY", "SHOWERS_NIGHT", "SNOW", "WINDY", "FOG", "THUNDERSTORM" }

  /** The three identifiers drawn with the rain cloud. */
  const RainGroup: set<string> := {"RAIN", "SHOWERS_DAY", "SHOWERS_NIGHT"}

  /** The `className` prop's default. */
  const DefaultSize: string := "w-16 h-16"

  /** The `switch` on the upper-cased identifier. */
  function GlyphFor(key: string): (g: Glyph)
    ensures g == Fallback <==> key !in KnownIdentifiers
    ensures g == RainCloud <==> key in RainGroup
  {
    if key == "CLEAR_DAY" then Sun
    else if key == "CLEAR_NIGHT" then Moon
    else if key == "CLOUDY" then Cloud
    else if key == "PARTLY_CLOUDY_DAY" then SunBehindCloud
    else if key == "PARTLY_CLOUDY_NIGHT" then MoonBehindCloud
    else if key == "RAIN" || key == "SHOWERS_DAY" || key == "SHOWERS_NIGHT" then RainCloud
    else if key == "SNOW" then Snowflake
    else if key == "WINDY" then Wind
    else if key == "FOG" then FogLines
    else if key == "THUNDERSTORM" then Lightning
    else Fallback
  }

  /** The colour class each glyph appends after the base classes. */
  function ColourClass(g: Glyph): string {
    match g
    case Sun | SunBehindCloud => "text-yellow-400"
    case Moon | MoonBehindCloud => "text-indigo-300"
    case Cloud => "text-slate-400"
    case RainCloud => "text-blue-400"
    case Snowflake => "text-sky-300"
    case Wind => "text-teal-400"
    case FogLines => "text-slate-500"
    case Lightning => "text-amber-400"
    case Fallback => "text-gray-400"
  }

  /** Line 10: the classes every glyph carries, around the size classes. */
  function BaseClasses(size: string): string {
    "inline-block " + size + " text-yellow-300 filter drop-shadow-lg"
  }

  /** The component: `className` is `None` when the prop is not passed. */
  function Render(iconIdentifier: string, className: Option<string>): (r: Rendered)
    ensures r.glyph == Fallback <==> ToUpperCase(iconIdentifier) !in KnownIdentifiers
    ensures className.None? ==> r.className == BaseClasses(DefaultSize) + " " + ColourClass(r.glyph)
    ensures className.Some? ==> r.className == BaseClasses(className.value) + " " + ColourClass(r.glyph)
  {
    var size := if className.Some? then className.value else DefaultSize;
    var glyph := GlyphFor(ToUpperCase(iconIdentifier));
    Rendered(glyph, BaseClasses(size) + " " + ColourClass(glyph))
  }

  /** The identifier's case does not matter: identifiers equal up to ASCII
      case render the same. */
  lemma RenderIgnoresCase(a: string, b: string, className: Option<string>)
    requires ToLowerCase(a) == ToLowerCase(b)
    ensures Render(a, className) == Render(b, className)
  {
    CaseFoldingAgrees(a, b);
  }

  /** Only the rain group shares a glyph: any two other known identifiers
      are drawn differently. */
  lemma GlyphsDistinctOutsideRainGroup(a: string, b: string)
    requires a in KnownIdentifiers && b in KnownIdentifiers && a != b
    requires GlyphFor(a) == GlyphFor(b)
    ensures a in RainGroup && b in RainGroup
  {
  }

  /** The fallback is grey, and the colour tells day, night and rain apart:
      each colour class belongs to the glyphs listed and no other. */
  lemma ColourTable(g: Glyph)
    ensures ColourClass(g) == "text-gray-400" <==> g == Fallback
    ensures ColourClass(g) == "text-yellow-400" <==> g in {Sun, SunBehindCloud}
    ensures ColourClass(g) == "text-indigo-300" <==> g in {Moon, MoonBehindCloud}
    ensures ColourClass(g) == "text-blue-400" <==> g == RainCloud
  {
  }

  /** Lower-case identifiers from the service are recognised too. */
  lemma LowerCaseIdentifiers(className: Option<string>)
    ensures Render("showers_night", className).glyph == RainCloud
    ensures Render("clear_day", className).glyph == Sun
    ensures Render("sunny", className).glyph == Fallback
  {
    assert ToUpperCase("showers_night") == "SHOWERS_NIGHT";
    assert ToUpperCase("clear_day") == "CLEAR_DAY";
    assert ToUpperCase("sunny") == "SUNNY";
  }

  /** The colour class of each upper-cased identifier: every colour names
      exactly the identifiers listed. */
  lemma ColoursByIdentifier(key: string)
    ensures ColourClass(GlyphFor(key)) == "text-yellow-400" <==> key in {"CLEAR_DAY", "PARTLY_CLOUDY_DAY"}
    ensures ColourClass(GlyphFor(key)) == "text-indigo-300" <==> key in {"CLEAR_NIGHT", "PARTLY_CLOUDY_NIGHT"}
    ensures ColourClass(GlyphFor(key)) == "text-blue-400" <==> key in RainGroup
    ensures ColourClass(GlyphFor(key)) == "text-slate-400" <==> key == "CLOUDY"
    ensures ColourClass(GlyphFor(key)) == "text-sky-300" <==> key == "SNOW"
    ensures ColourClass(GlyphFor(key)) == "text-teal-400" <==> key == "WINDY"
    ensures ColourClass(GlyphFor(key)) == "text-slate-500" <==> key == "FOG"
    ensures ColourClass(GlyphFor(key)) == "text-amber-400" <==> key == "THUNDERSTORM"
    ensures ColourClass(GlyphFor(key)) == "text-gray-400" <==> key !in KnownIdentifiers
  {
  }

  /** The size classes sit right after "inline-block ". */
  lemma SizeInClasses(size: string, colour: string)
    ensures OccursAt(BaseClasses(size) + " " + colour, size, 13)
  {
    var after := " text-yellow-300 filter drop-shadow-lg" + " " + colour;
    assert BaseClasses(size) + " " + colour == "inline-block " + size + after;
    InfixOccurs("inline-block ", size, after);
  }

  /** The size classes, given or default, always appear in the class list. */
  lemma SizeAlwaysApplied(iconIdentifier: string, className: Option<string>)
    ensures var size := if className.Some? then className.value else DefaultSize;
            OccursAt(Render(iconIdentifier, className).className, size, 13)
  {
    var size := if className.Some? then className.value else DefaultSize;
    SizeInClasses(size, ColourClass(Render(iconIdentifier, className).glyph));
  }
}
