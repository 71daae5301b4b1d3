/**
 * The `/weather` command: argument handling, the geocoding check, the
 * forecast check, the weather-code table and the reply text. The two
 * Open-Meteo HTTP calls are parameters: `geocode` gives the "results" list of
 * the geocoding answer (None when the key is absent), `forecast` gives the
 * "current_weather" object for a place (None when the key is absent).
 */
module Weather {
  import opened Wrappers
  import opened Text

  const UsageText := "Введите город после команды, например: /weather Москва"
  const CityNotFound := "Не удалось найти город. Попробуйте другой запрос."
  const ForecastFailed := "Ошибка при получении данных о погоде."
  const UnknownConditions := "Неизвестные погодные условия"

  /** The `weather_conditions` table: WMO weather code to its Russian description. */
  const Conditions: map<int, string> := map[
    0 := "Ясно",
    1 := "Преимущественно ясно",
    2 := "Переменная облачность",
    3 := "Пасмурно",
    45 := "Туман",
    48 := "Ледяной туман",
    51 := "Легкий моросящий дождь",
    53 := "Моросящий дождь",
    55 := "Сильный моросящий дождь",
    61 := "Легкий дождь",
    63 := "Дождь",
    65 := "Сильный дождь",
    71 := "Легкий снегопад",
    73 := "Снегопад",
    75 := "Сильный снегопад",
    80 := "Легкий ливень",
    81 := "Ливень",
    82 := "Сильный ливень"
  ]

  /** `weather_conditions.get(code, "Неизвестные погодные условия")`. */
  function Describe(code: int): (desc: string)
    ensures desc != UnknownConditions <==> code in KnownCodes
  {
    if code in Conditions then Conditions[code] else UnknownConditions
  }

  /** The codes the table knows, listed independently of the table. */
  const KnownCodes: set<int> := {0, 1, 2, 3, 45, 48, 51, 53, 55, 61, 63, 65, 71, 73, 75, 80, 81, 82}

  /** The inverse reading of a description: which code it reports, if any. */
  function CodeOf(desc: string): Option<int>
  {
    if desc == "Ясно" then Some(0)
    else if desc == "Преимущественно ясно" then Some(1)
    else if desc == "Переменная облачность" then Some(2)
    else if desc == "Пасмурно" then Some(3)
    else if desc == "Туман" then Some(45)
    else if desc == "Ледяной туман" then Some(48)
    else if desc == "Легкий моросящий дождь" then Some(51)
    else if desc == "Моросящий дождь" then Some(53)
    else if desc == "Сильный моросящий дождь" then Some(55)
    else if desc == "Легкий дождь" then Some(61)
    else if desc == "Дождь" then Some(63)
    else if desc == "Сильный дождь" then Some(65)
    else if desc == "Легкий снегопад" then Some(71)
    else if desc == "Снегопад" then Some(73)
    else if desc == "Сильный снегопад" then Some(75)
    else if desc == "Легкий ливень" then Some(80)
    else if desc == "Ливень" then Some(81)
    else if desc == "Сильный ливень" then Some(82)
    else None
  }

  /**
   * The description reports the code faithfully: a listed code is recovered
   * from its description, and every other code gets the fallback text, which
   * reads as no code at all.
   */
  lemma DescribeRoundTrip(code: int)
    ensures code in KnownCodes ==> CodeOf(Describe(code)) == Some(code)
    ensures code !in KnownCodes ==> Describe(code) == UnknownConditions && CodeOf(Describe(code)) == None
  {
  }

  /** One entry of the geocoding "results" list; coordinates as rendered text. */
  datatype Place = Place(latitude: string, longitude: string)

  /** The "current_weather" object; temperature and wind speed as rendered text. */
  datatype CurrentWeather = CurrentWeather(temperature: string, windspeed: string, weathercode: int)

  /** The geocoding check: the first result when "results" is present and non-empty. */
  function Locate(results: Option<seq<Place>>): (place: Option<Place>)
    ensures place.None? <==> results.None? || |results.value| == 0
    ensures place.Some? ==> place.value == results.value[0]
  {
    if results.None? || |results.value| == 0 then None else Some(results.value[0])
  }

  /**
   * The reply text built from the current weather in `city`: a heading naming
   * the city, then the temperature, the wind speed and the conditions, each
   * after its own label.
   */
  function Report(city: string, w: CurrentWeather): (text: string)
    ensures IsInfix("Погода в " + city + ":", text)
    ensures IsInfix("Температура: " + w.temperature + "°C", text)
    ensures IsInfix("Ветер: " + w.windspeed + " км/ч", text)
    ensures IsInfix("Условия: " + Describe(w.weathercode), text)
    ensures IsInfix(city, text)
    ensures IsInfix(w.temperature, text)
    ensures IsInfix(w.windspeed, text)
    ensures IsInfix(Describe(w.weathercode), text)
    ensures text != CityNotFound && text != ForecastFailed
  {
    var heading := "Погода в " + city + ":";
    var temperature := "Температура: " + w.temperature + "°C";
    var wind := "Ветер: " + w.windspeed + " км/ч";
    var conditions := "Условия: " + Describe(w.weathercode);
    ReportLines(heading, temperature, wind, conditions);
    var text := heading + "\n🌡 " + temperature + "\n💨 " + wind + "\n☁️ " + conditions;
    InfixOfConcat("Погода в ", city, ":");
    InfixTransitive(city, heading, text);
    InfixOfConcat("Температура: ", w.temperature, "°C");
    InfixTransitive(w.temperature, temperature, text);
    InfixOfConcat("Ветер: ", w.windspeed, " км/ч");
    InfixTransitive(w.windspeed, wind, text);
    InfixOfConcat("Условия: ", Describe(w.weathercode), "");
    assert conditions == "Условия: " + Describe(w.weathercode) + "";
    InfixTransitive(Describe(w.weathercode), conditions, text);
    assert text[0] == 'П';
    text
  }

  /** Each of the four lines of the report occurs in it. */
  lemma ReportLines(heading: string, temperature: string, wind: string, conditions: string)
    ensures var text := heading + "\n🌡 " + temperature + "\n💨 " + wind + "\n☁️ " + conditions;
      && IsInfix(heading, text) && IsInfix(temperature, text)
      && IsInfix(wind, text) && IsInfix(conditions, text)
  {
    var text := heading + "\n🌡 " + temperature + "\n💨 " + wind + "\n☁️ " + conditions;
    var beforeT := heading + "\n🌡 ";
    var beforeW := beforeT + temperature + "\n💨 ";
    var beforeC := beforeW + wind + "\n☁️ ";
    assert OccursAt(heading, text, 0);
    assert OccursAt(temperature, text, |beforeT|);
    assert OccursAt(wind, text, |beforeW|);
    assert OccursAt(conditions, text, |beforeC|);
  }

  /** `get_weather(city)` with its two HTTP calls as parameters. */
  function GetWeather(city: string, results: Option<seq<Place>>,
                      forecast: Place -> Option<CurrentWeather>): (reply: string)
    ensures reply == CityNotFound <==> Locate(results).None?
    ensures reply == ForecastFailed <==> Locate(results).Some? && forecast(Locate(results).value).None?
    ensures Locate(results).Some? && forecast(Locate(results).value).Some? ==>
      reply == Report(city, forecast(Locate(results).value).value)
  {
    assert |CityNotFound| != |ForecastFailed|;
    match Locate(results)
    case None => CityNotFound
    case Some(place) =>
      match forecast(place)
      case None => ForecastFailed
      case Some(w) => Report(city, w)
  }

  /** A city the geocoder cannot find gets its reply without any forecast request. */
  lemma NotFoundSkipsForecast(city: string, results: Option<seq<Place>>,
                              f: Place -> Option<CurrentWeather>, g: Place -> Option<CurrentWeather>)
    requires results.None? || |results.value| == 0
    ensures GetWeather(city, results, f) == GetWeather(city, results, g) == CityNotFound
  {
  }

  /** Only the first geocoding result is used. */
  lemma OnlyFirstResultMatters(city: string, first: Place, rest: seq<Place>,
                               forecast: Place -> Option<CurrentWeather>)
    ensures GetWeather(city, Some([first] + rest), forecast) == GetWeather(city, Some([first]), forecast)
  {
  }

  /** What the `/weather` handler does with its arguments. */
  datatype Command = Usage(message: string) | Lookup(city: string)

  /** Argument handling of `/weather`: the city is the arguments joined by single spaces. */
  function ParseCommand(args: seq<string>): (cmd: Command)
    ensures cmd.Usage? <==> |args| == 0
    ensures cmd.Usage? ==> cmd.message == UsageText
    ensures cmd.Lookup? ==> |cmd.city| == TotalLength(args) + |args| - 1
    ensures cmd.Lookup? ==> cmd.city[..|args[0]|] == args[0]
  {
    if |args| == 0 then Usage(UsageText) else Lookup(Join(args, ' '))
  }

  /**
   * Telegram's arguments are whitespace-free words, so the joined city name
   * keeps them all: splitting it on spaces gives the arguments back.
   */
  lemma ParseCommandKeepsWords(args: seq<string>)
    requires |args| > 0
    requires forall k :: 0 <= k < |args| ==> ' ' !in args[k]
    ensures ParseCommand(args).Lookup?
    ensures SplitOn(ParseCommand(args).city, ' ') == args
  {
    SplitOnJoin(args, ' ');
  }

  /** The reply of the `/weather` handler. */
  function Reply(args: seq<string>, geocode: string -> Option<seq<Place>>,
                 forecast: Place -> Option<CurrentWeather>): (reply: string)
    ensures |args| == 0 ==> reply == UsageText
    ensures |args| > 0 ==> reply == GetWeather(Join(args, ' '), geocode(Join(args, ' ')), forecast)
  {
    match ParseCommand(args)
    case Usage(message) => message
    case Lookup(city) => GetWeather(city, geocode(city), forecast)
  }

  /** Without arguments the handler answers with the usage text and looks nothing up. */
  lemma NoArgumentsNoLookup(g1: string -> Option<seq<Place>>, f1: Place -> Option<CurrentWeather>,
                            g2: string -> Option<seq<Place>>, f2: Place -> Option<CurrentWeather>)
    ensures Reply([], g1, f1) == Reply([], g2, f2) == UsageText
  {
  }
}
