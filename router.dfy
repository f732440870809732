/**
 The two text decisions of the message handlers: the free-text handler,
 which treats any other text as a city name, and the argument of
 `/weather <city>`.
 */
module Router {
  import opened Text

  /** The labels of the five keyboard buttons. */
  const ButtonLabels: seq<string> := [
    "🌤️ Узнать погоду",
    "📅 Подписаться на рассылку",
    "🏙️ Сменить город",
    "❌ Отписаться от рассылки",
    "❓ Помощь"
  ]

  datatype TextAction = Ignore | LookUp(city: string)

  /** `text_message`: commands and button labels are left alone; anything else is a city name. */
  function OnText(text: string): (a: TextAction)
    ensures a == Ignore <==> "/" <= text || text in ButtonLabels
    ensures a.LookUp? ==> a.city == Strip(text)
  {
    if "/" <= text then Ignore
    else if text in ButtonLabels then Ignore
    else LookUp(Strip(text))
  }

  /**
   The city the free-text handler looks up is the text without its surrounding
   whitespace: a slice of it, with only whitespace cut off, and nothing left to strip.
   */
  lemma OnTextCityIsTrimmed(text: string)
    requires OnText(text).LookUp?
    ensures var city := OnText(text).city;
            && (exists i, j :: StripsTo(text, i, j) && city == text[i..j])
            && Strip(city) == city
  {
    StripMeetsSpec(text);
    StripIdempotent(text);
  }

  datatype CommandAction = Usage | LookUpCity(city: string)

  /**
   `weather_command`: the city is what follows the first space, stripped; a
   text with no space at all gets the usage reply.
   */
  function OnWeatherCommand(text: string): (a: CommandAction)
    ensures a == Usage <==> ' ' !in text
    ensures a.LookUpCity? ==> exists head, tail :: text == head + " " + tail && ' ' !in head && a.city == Strip(tail)
  {
    var parts := SplitOnce(text, ' ');
    if |parts| < 2 then Usage
    else
      assert text == parts[0] + " " + parts[1];
      LookUpCity(Strip(parts[1]))
  }

  /** Typing `/weather` followed by a city looks up that city, stripped. */
  lemma WeatherCommandRoundTrip(city: string)
    ensures OnWeatherCommand("/weather " + city) == LookUpCity(Strip(city))
  {
    var text := "/weather " + city;
    assert text[8] == ' ';
    assert ' ' !in text[..8] by {
      assert text[..8] == "/weather";
    }
    var i := IndexOf(text, ' ').value;
    assert forall k :: 0 <= k < i ==> text[..i][k] == text[k];
    assert forall k :: 0 <= k < 8 ==> text[..8][k] == text[k];
    assert i == 8;
    assert text[9..] == city;
  }
}
