/**
 * The inline menu shown by `/start` and the callback-token router `button`:
 * the two buttons carry the tokens "weather" and "currency", and pressing one
 * replaces the menu message with the matching prompt.
 */
module Menu {
  import opened Wrappers
  import opened Text
  import Weather
  import Currency

  const Greeting := "Привет! Я ваш виртуальный ассистент. Чем могу помочь?\n\nВыберите одну из опций ниже:"
  /** The sample commands quoted in the two prompts, word by word. */
  const WeatherExampleWords: seq<string> := ["/weather", "Москва"]
  const CurrencyExampleWords: seq<string> := ["/currency", "USD", "EUR"]

  /** The sample commands as typed: "/weather Москва" and "/currency USD EUR". */
  const WeatherExample := Join(WeatherExampleWords, ' ')
  const CurrencyExample := Join(CurrencyExampleWords, ' ')

  const WeatherPrompt := "Введите город для получения погоды, например: " + WeatherExample
  const CurrencyPrompt := "Введите валюту, например: " + CurrencyExample + " для получения курса USD к EUR"

  datatype Button = Button(text: string, callbackData: string)

  /** `build_menu()`: one button per row. */
  const Keyboard: seq<seq<Button>> := [
    [Button("Погода", "weather")],
    [Button("Курс валют", "currency")]
  ]

  /** The callback tokens the menu can send. */
  function MenuTokens(): set<string>
  {
    set row, b | row in Keyboard && b in row :: b.callbackData
  }

  lemma MenuTokensAre()
    ensures MenuTokens() == {"weather", "currency"}
  {
    assert Keyboard[0][0] in Keyboard[0] && Keyboard[0] in Keyboard;
    assert Keyboard[1][0] in Keyboard[1] && Keyboard[1] in Keyboard;
  }

  /** The `/start` reply: the greeting and the menu. */
  datatype StartReply = StartReply(text: string, keyboard: seq<seq<Button>>)

  /** `start`: every button of the menu it shows leads to a prompt, and every prompt has a button. */
  function Start(): (r: StartReply)
    ensures r.text == Greeting
    ensures exists row :: row in r.keyboard && Button("Погода", "weather") in row
    ensures exists row :: row in r.keyboard && Button("Курс валют", "currency") in row
    ensures forall row, b :: row in r.keyboard && b in row ==>
              && (b.text == "Погода" <==> b.callbackData == "weather")
              && (b.text == "Курс валют" <==> b.callbackData == "currency")
    ensures forall row, b :: row in r.keyboard && b in row ==> Route(b.callbackData).Some?
    ensures forall token :: Route(token).Some? ==> exists row, b :: row in r.keyboard && b in row && b.callbackData == token
  {
    MenuTokensAre();
    assert Button("Погода", "weather") in Keyboard[0];
    assert Button("Курс валют", "currency") in Keyboard[1];
    StartReply(Greeting, Keyboard)
  }

  /** `button`: the new text of the menu message, or None when it is left as it is. */
  function Route(token: string): (edit: Option<string>)
    ensures token == "weather" ==> edit == Some(WeatherPrompt)
    ensures token == "currency" ==> edit == Some(CurrencyPrompt)
    ensures edit.Some? <==> token in MenuTokens()
  {
    MenuTokensAre();
    if token == "weather" then Some(WeatherPrompt)
    else if token == "currency" then Some(CurrencyPrompt)
    else None
  }

  /** Each prompt quotes its example command. */
  lemma PromptsQuoteExamples()
    ensures IsInfix(WeatherExample, WeatherPrompt)
    ensures IsInfix(CurrencyExample, CurrencyPrompt)
  {
    InfixOfConcat("Введите город для получения погоды, например: ", WeatherExample, "");
    assert WeatherPrompt == "Введите город для получения погоды, например: " + WeatherExample + "";
    InfixOfConcat("Введите валюту, например: ", CurrencyExample, " для получения курса USD к EUR");
  }

  /**
   * The weather prompt's example command is accepted by `/weather`: the words
   * after the command name, as Telegram splits them off, make a lookup and not
   * the usage text.
   */
  lemma WeatherExampleAccepted()
    ensures SplitOn(WeatherExample, ' ')[0] == "/weather"
    ensures Weather.ParseCommand(SplitOn(WeatherExample, ' ')[1..]) == Weather.Lookup("Москва")
  {
    assert forall k :: 0 <= k < |WeatherExampleWords| ==> ' ' !in WeatherExampleWords[k];
    SplitOnJoin(WeatherExampleWords, ' ');
    assert WeatherExampleWords[1..] == ["Москва"];
  }

  /** Likewise for the currency prompt and `/currency`. */
  lemma CurrencyExampleAccepted()
    ensures SplitOn(CurrencyExample, ' ')[0] == "/currency"
    ensures Currency.ParseCommand(SplitOn(CurrencyExample, ' ')[1..]) == Currency.Lookup("USD", "EUR")
  {
    assert forall k :: 0 <= k < |CurrencyExampleWords| ==> ' ' !in CurrencyExampleWords[k];
    SplitOnJoin(CurrencyExampleWords, ' ');
    assert CurrencyExampleWords[1..] == ["USD", "EUR"];
    assert Upper("USD") == "USD";
    assert Upper("EUR") == "EUR";
  }
}
