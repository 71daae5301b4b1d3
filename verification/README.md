# VictorianBot decisions in Dafny

VictorianBot is a Telegram assistant (`main.py`) that forwards free text to a
Gemini chat session, answers `/weather <city>` from Open-Meteo, answers
`/currency BASE TARGET` from an exchange-rate service, and shows a two-button
menu on `/start`. This project models the pure decisions inside those handlers
and proves what they promise. The HTTP calls, the Gemini call and Telegram's
transport become parameters or abstract inputs.

Modules:

- `Chunker` (`chunker.dfy`): the reply splitter of `echo`, and the messages
  `echo` delivers when the model call or a send fails.
- `Weather` (`weather.dfy`): `/weather` argument handling, the geocoding and
  forecast checks of `get_weather`, the weather-code table and the reply text.
- `Currency` (`currency.dfy`): `/currency` argument handling and the decision
  logic of `get_currency_rate`.
- `Menu` (`menu.dfy`): the `/start` keyboard and the callback router `button`.
- `Text` and `Wrappers`: string helpers (concatenation, `" ".join`, its
  inverse `split(" ")`, an ASCII `upper()`, substring containment) and `Option`.

Abstract inputs: the Gemini reply is `Replied(text)` or `Raised`; a send
failure is the index of the first of the reply's own `reply_text` calls that
raises (the apology's send is assumed to succeed); the geocoding
answer is its optional "results" list; the forecast answer is a function from
a place to its optional "current_weather" object; the exchange-rate answer is
a function from the base currency to a record of "result" and
"conversion_rates". Numbers the bot only prints (temperature, wind speed,
coordinates, rates) are kept as their rendered text.

There is no word-boundary logic and no trimming: `echo` cuts at offsets 0,
4096, 8192, … and keeps every character, so concatenation gives back the reply
exactly. A reply of at most 4096 characters is passed to a single `reply_text`
call. For an empty reply that one call is still made; Telegram rejects empty
text, so the call raises and the apology follows (in the model, a send failure
at index 0). Lengths are counted in Unicode code points, like Python's `len`.

## Model

| member | source | states |
|---|---|---|
| Chunker.Split | main.py:155-161 | The messages concatenate back to the reply exactly and none is longer than 4096. A reply of at most 4096 characters is one message equal to the reply. A longer reply gives ceil(len/4096) messages, all but the last exactly 4096 long. |
| Chunker.SplitReply | main.py:155-159 | The `range(0, len, 4096)` slicing loop, as written, yields exactly `Split`: the same pieces, in order, each within the limit. |
| Chunker.ChunksCharacterised | main.py:157-158 | A list of pieces is the slicing of the text if and only if it spells the text in order, every piece but the last is 4096 long, and the last is 1 to 4096 long. |
| Chunker.ChunksCount | main.py:157-158 | The slicing yields ceil(len/4096) pieces. |
| Chunker.Echo | main.py:151-164 | A model failure gives the single apology. Every delivered message fits the limit. Without failures the chat receives the whole reply, in order, in the expected number of messages. |
| Chunker.EchoStopsAtFailure | main.py:157-164 | When sending piece k raises, pieces 0..k-1 were delivered, they form a prefix of the reply, no later piece is attempted, and exactly one apology follows (assuming the apology's own send succeeds). |
| Weather.DescribeRoundTrip | main.py:59-80 | Each of the 18 listed codes is recovered from its description, so no two listed codes share a text. Every other code gets "Неизвестные погодные условия", which names no code. |
| Weather.Describe | main.py:59-80 | `weather_conditions.get(code, …)`: a code gets a text other than "Неизвестные погодные условия" exactly when it is one of the 18 listed codes. |
| Weather.Locate | main.py:43-47 | A place is found exactly when "results" is present and non-empty, and it is the first result. |
| Weather.GetWeather | main.py:39-81 | The "city not found" text comes exactly when geocoding finds nothing. The forecast-error text comes exactly when a place is found but the forecast has no current weather. Otherwise the reply is the weather report. |
| Weather.NotFoundSkipsForecast | main.py:43-50 | When geocoding finds nothing, the reply does not depend on the forecast service, so no forecast is requested. |
| Weather.OnlyFirstResultMatters | main.py:46-47 | Geocoding results after the first do not change the reply. |
| Weather.Report | main.py:81 | The report has the heading "Погода в <city>:", the temperature after its label and before "°C", the wind speed after its label and before "км/ч", and the decoded conditions after "Условия: ", so the two numbers cannot trade places. It never equals either error text. |
| Weather.ParseCommand | main.py:125-129 | Usage text if and only if there are no arguments. Otherwise the city starts with the first argument and is as long as the arguments plus one separator between each pair. |
| Weather.ParseCommandKeepsWords | main.py:129 | For whitespace-free arguments, splitting the city on spaces gives the arguments back, so the single-space join loses nothing. |
| Weather.Reply | main.py:124-131 | With no arguments the reply is the usage text. Otherwise it is `get_weather` of the space-joined city. |
| Weather.NoArgumentsNoLookup | main.py:125-127 | With no arguments the reply is the same whatever the geocoding and forecast services answer. |
| Currency.SelectRate | main.py:88-96 | Failure if and only if "result" is not "success". Not-found, naming the target, if and only if it is a success without the target in the rates. Otherwise the rate found is `rates[target]`, for the given base and target. |
| Currency.FailureIgnoresRates | main.py:88-89 | An answer that is not a success gives the failure outcome whatever rates it carries. |
| Currency.OnlyTargetRateMatters | main.py:91-95 | Two rate tables that agree on the target give the same outcome. |
| Currency.OutcomeText | main.py:89-96 | The not-found text contains "валюты <target> не найден.". The rate line starts with "Курс <base> к <target>: " and contains "<base> к <target>: <rate>", so the direction of the rate is fixed. Neither equals the failure text. |
| Currency.ParseCommand | main.py:135-140 | Usage text if and only if there are fewer than two arguments. Otherwise base and target are the upper-cased first and second arguments. |
| Currency.ExtraArgumentsIgnored | main.py:139-140 | Arguments after the second have no effect on the query. |
| Currency.ParseCommandCaseInsensitive | main.py:139-140 | Upper-casing the arguments first gives the same query, so codes are matched without regard to ASCII case. |
| Currency.Reply | main.py:134-142 | With fewer than two arguments the reply is the usage text. Otherwise it is the text of the rate selected for the upper-cased codes from the answer for the base. |
| Currency.TooFewArgumentsNoLookup | main.py:135-137 | With fewer than two arguments the reply is the same whatever the rate service answers. |
| Text.Upper | main.py:139-140 | Upper-casing keeps the length, leaves no lower-case ASCII letter, changes only ASCII lower-case letters, and maps each of them to its capital. |
| Menu.Start | main.py:99-111 | The `/start` reply is the greeting with a menu holding the buttons "Погода"/"weather" and "Курс валют"/"currency", each label paired with its own token. Every button leads to a prompt, and every token that leads to a prompt is on a button. |
| Menu.MenuTokensAre | main.py:99-104 | The menu carries exactly the two callback tokens "weather" and "currency". |
| Menu.Route | main.py:118-121 | "weather" and "currency" edit the message to their prompts. A token gets an edit if and only if some menu button carries it; any other token leaves the message as it is. |
| Menu.PromptsQuoteExamples | main.py:119-121 | Each prompt contains its sample command. This holds by construction, since each prompt is built around its sample; the link to the handlers is in the two lemmas below. |
| Menu.WeatherExampleAccepted | main.py:119 | Split into words as Telegram does, the sample `/weather Москва` is the command name followed by arguments that `/weather` turns into a lookup of "Москва", not the usage text. |
| Menu.CurrencyExampleAccepted | main.py:121 | Split into words, the sample `/currency USD EUR` is the command name followed by arguments that `/currency` turns into a lookup of USD to EUR, not the usage text. |

## Left out

- HTTP calls and JSON decoding (`requests.get(...).json()`): their results are abstract inputs. A JSON key the code reads without checking ("result", "conversion_rates", "latitude", "temperature", …) is assumed present, so the `KeyError` paths are not modelled.
- The Gemini model and the process-wide `chat_session`: the reply of `send_message` is an input. The bot shares one conversation among all users and keeps no per-user session.
- Telegram transport: `reply_text`, `edit_message_text`, `send_chat_action`, `query.answer`, handler registration and polling. Only the texts sent, and the point at which one of the reply's `reply_text` calls raises, are modelled.
- The logging of the caught exception in `echo`: the model keeps only the fixed apology text.
- Formatting of floats (temperature, wind speed, coordinates, rates): kept as opaque rendered text.
- URL construction: the city is put into the query string (main.py:40) and the base currency into the URL path (main.py:85), both without encoding, and the exchange-rate URL carries the literal placeholder `YOUR_API_KEY` instead of a real key (main.py:85). The `fetch` parameter stands for whatever answer that request gets.
- `.env` loading and logging setup.
- Weather.Reply: always returns a text. An exception from `requests.get` or `.json()` in `get_weather` is not caught by the `weather` handler, so the real command then sends no reply at all; that path is not modelled.
- Currency.Reply: always returns a text. An exception from `requests.get` or `.json()` in `get_currency_rate` is not caught by the `currency` handler, so the real command then sends no reply at all; that path is not modelled.
- Chunker.Echo: assumes that `send_chat_action` (main.py:149, before the `try`) and the apology's own `reply_text` (main.py:164, inside the `except`) both succeed. If the first raises, nothing is sent at all; if the second raises, no apology arrives. Neither case is modelled.
- Text.Upper: models Python's `str.upper()` on ASCII letters only. Non-ASCII characters are left unchanged, although Python maps them too and can change the length (`"ß".upper() == "SS"`).
- Chunker.Split: lengths are in Unicode code points, as Python counts them. Telegram's own way of measuring the 4096 limit is not modelled.
