/**
 * The `/currency` command: argument handling and the decision logic of
 * `get_currency_rate`. The exchange-rate HTTP call is a parameter `fetch`
 * from the base currency to the decoded JSON answer.
 */
module Currency {
  import opened Text

  const UsageText := "Введите валюты в формате: /currency BASE TARGET (например: /currency USD EUR)"
  const FetchFailedText := "Не удалось получить данные о курсах валют."

  /** A rate as `str()` renders the JSON number. */
  type Rate = string

  /** The fields of the exchange-rate answer the code reads: "result" and "conversion_rates". */
  datatype RatesResponse = RatesResponse(result: string, conversionRates: map<string, Rate>)

  /** The three outcomes of `get_currency_rate`. */
  datatype Outcome =
    | FetchFailed
    | TargetNotFound(target: string)
    | Found(base: string, target: string, rate: Rate)

  /** Decision logic of `get_currency_rate(base, target)` on the answer `resp`. */
  function SelectRate(base: string, target: string, resp: RatesResponse): (o: Outcome)
    ensures o.FetchFailed? <==> resp.result != "success"
    ensures o.TargetNotFound? <==> resp.result == "success" && target !in resp.conversionRates
    ensures o.TargetNotFound? ==> o.target == target
    ensures o.Found? ==>
              && o.base == base && o.target == target
              && target in resp.conversionRates && o.rate == resp.conversionRates[target]
  {
    if resp.result != "success" then FetchFailed
    else if target !in resp.conversionRates then TargetNotFound(target)
    else Found(base, target, resp.conversionRates[target])
  }

  /** A failed answer gives the failure outcome whatever rates it carries. */
  lemma FailureIgnoresRates(base: string, target: string, result: string, r1: map<string, Rate>, r2: map<string, Rate>)
    requires result != "success"
    ensures SelectRate(base, target, RatesResponse(result, r1)) == SelectRate(base, target, RatesResponse(result, r2)) == FetchFailed
  {
  }

  /** Only the target's entry of the rate table matters. */
  lemma OnlyTargetRateMatters(base: string, target: string, result: string, r1: map<string, Rate>, r2: map<string, Rate>)
    requires (target in r1) == (target in r2)
    requires target in r1 ==> r1[target] == r2[target]
    ensures SelectRate(base, target, RatesResponse(result, r1)) == SelectRate(base, target, RatesResponse(result, r2))
  {
  }

  /** The reply text of each outcome. */
  function OutcomeText(o: Outcome): (text: string)
    ensures o.FetchFailed? ==> text == FetchFailedText
    ensures o.TargetNotFound? ==> IsInfix(o.target, text) && text != FetchFailedText
    ensures o.TargetNotFound? ==> IsInfix("валюты " + o.target + " не найден.", text)
    ensures o.Found? ==> IsInfix(o.base, text) && IsInfix(o.target, text) && IsInfix(o.rate, text)
    ensures o.Found? ==> "Курс " + o.base + " к " + o.target + ": " <= text
    ensures o.Found? ==> IsInfix(o.base + " к " + o.target + ": " + o.rate, text)
    ensures o.Found? ==> text != FetchFailedText
  {
    match o
    case FetchFailed => FetchFailedText
    case TargetNotFound(target) =>
      var message := "валюты " + target + " не найден.";
      var text := "Курс для " + message;
      InfixOfConcat("Курс для ", message, "");
      assert text == "Курс для " + message + "";
      InfixOfConcat("валюты ", target, " не найден.");
      InfixTransitive(target, message, text);
      assert text[0] == 'К' && FetchFailedText[0] == 'Н';
      text
    case Found(base, target, rate) =>
      var line := base + " к " + target + ": " + rate;
      var text := "Курс " + line;
      InfixOfConcat("Курс ", line, "");
      assert text == "Курс " + line + "";
      RateLineParts(base, target, rate);
      InfixTransitive(base, line, text);
      InfixTransitive(target, line, text);
      InfixTransitive(rate, line, text);
      assert text == ("Курс " + base + " к " + target + ": ") + rate;
      assert text[0] == 'К' && FetchFailedText[0] == 'Н';
      text
  }

  /** Base, target and rate each occur in the line "base к target: rate". */
  lemma RateLineParts(base: string, target: string, rate: string)
    ensures var line := base + " к " + target + ": " + rate;
      IsInfix(base, line) && IsInfix(target, line) && IsInfix(rate, line)
  {
    var line := base + " к " + target + ": " + rate;
    assert OccursAt(base, line, 0);
    assert OccursAt(target, line, |base + " к "|);
    assert OccursAt(rate, line, |base + " к " + target + ": "|);
  }

  /** What the `/currency` handler does with its arguments. */
  datatype Command = Usage(message: string) | Lookup(base: string, target: string)

  /** Argument handling of `/currency`: two codes, upper-cased; the rest ignored. */
  function ParseCommand(args: seq<string>): (cmd: Command)
    ensures cmd.Usage? <==> |args| < 2
    ensures cmd.Usage? ==> cmd.message == UsageText
    ensures cmd.Lookup? ==> cmd.base == Upper(args[0]) && cmd.target == Upper(args[1])
  {
    if |args| < 2 then Usage(UsageText) else Lookup(Upper(args[0]), Upper(args[1]))
  }

  /** Arguments after the second have no effect. */
  lemma ExtraArgumentsIgnored(args: seq<string>, extra: seq<string>)
    requires |args| >= 2
    ensures ParseCommand(args + extra) == ParseCommand(args)
    ensures ParseCommand(args) == ParseCommand(args[..2])
  {
  }

  /** Currency codes are matched case-insensitively (over ASCII letters). */
  lemma ParseCommandCaseInsensitive(args: seq<string>)
    ensures ParseCommand(seq(|args|, k requires 0 <= k < |args| => Upper(args[k]))) == ParseCommand(args)
  {
    if |args| >= 2 {
      UpperIdempotent(args[0]);
      UpperIdempotent(args[1]);
    }
  }

  /** The reply of the `/currency` handler; `fetch` answers for a base currency. */
  function Reply(args: seq<string>, fetch: string -> RatesResponse): (reply: string)
    ensures |args| < 2 ==> reply == UsageText
    ensures |args| >= 2 ==> reply == OutcomeText(SelectRate(Upper(args[0]), Upper(args[1]), fetch(Upper(args[0]))))
  {
    match ParseCommand(args)
    case Usage(message) => message
    case Lookup(base, target) => OutcomeText(SelectRate(base, target, fetch(base)))
  }

  /** With fewer than two arguments the handler answers with the usage text and looks nothing up. */
  lemma TooFewArgumentsNoLookup(args: seq<string>, f1: string -> RatesResponse, f2: string -> RatesResponse)
    requires |args| < 2
    ensures Reply(args, f1) == Reply(args, f2) == UsageText
  {
  }
}
