# Weather bot core, modelled in Dafny

This project models the logic of a Telegram weather bot. The bot reports
current weather for a city and sends a daily forecast to subscribed users.
Its state is a JSON file that maps each chat id to a record
`{"city": ..., "subscribed": ...}`.

The model covers:

- **The subscription store** (`user_store.dfy`). The class `UserStore.Store`
  stands for the JSON file.
  - `users` holds the dictionary.
  - `order` holds the key order of the JSON object. That is the order in
    which Python's dict iterates, so it decides the order of the subscriber
    list.
  - `saves` counts the writes of the file.
  - Its methods `GetCity`, `SetCity`, `SubscribedUsers` and `Unsubscribe` are
    proved against the functions `CityOf`, `WithCity`, `Subscribed` and
    `WithoutSubscription`. The lemmas about those functions give the
    properties: idempotence, "other users unchanged", "unsubscribing keeps the
    city", and "each subscriber listed exactly once, in file order".
- **The handlers that change the store** (`flows.dfy`):
  - the answer to "subscribe";
  - the "change city" prompt and its answer;
  - the "unsubscribe" button.

  The provider's answer to the city check is a parameter (`Probe`).
- **Current-weather classification** (`weather.dfy`). This is the ordered
  chain of substring tests that picks one of eight (picture, comment)
  outcomes. It is proved equal to a first-match search over an explicit
  priority list of (test, outcome) pairs. It is also proved to choose the
  outcome at position k exactly when that test holds and every earlier test
  fails.
- **The daily forecast summary and broadcast loop** (`forecast.dfy`):
  - `Summarise` is the loop over the first eight forecast entries. It is
    proved against `SummaryOf`.
  - `SendDailyWeather` is the loop over the subscriber snapshot. Each user's
    outcome depends only on that user's own forecast request.
- **The free-text filter and the `/weather <city>` argument split**
  (`router.dfy`).
- **Supporting definitions**:
  - `text.dfy`: Python's `in` on strings, `strip()`, `lower()`,
    `split(' ', 1)`, `", ".join` and `str(int)`;
  - `json.dfy`: JSON values with Python truthiness;
  - `seqs.dfy`: subsequences.

The network, the chat transport and the clock are not modelled as code. Each
network answer enters as a parameter:

- `Flows.Probe` for the city checks;
- `Weather.Response` for the current-weather request;
- the function `fetch` of `Forecast.SendDailyWeather` for the forecast
  requests.

## Behaviour kept as written

- Only the two city checks pass `timeout=10` (main.py:148, main.py:183-185).
  `get_weather_data` (main.py:254) passes no timeout and catches no
  exception from the request. `Weather.Lookup` models a raised request as `Unhandled`.
- An empty forecast list makes the average a division by zero (main.py:342).
  The per-user `except Exception` catches it (main.py:376-377), so that user
  gets no message at all (`Forecast.EmptyForecastSendsNothing`).
- `progress_subscription` rejects a blank answer before asking the provider
  (main.py:138-141). `progress_city_change` (main.py:178-188) has no such
  test. `Flows.ProgressCityChange` models that as written; the consequence
  is under "## Findings".

## Model

| member | source | states |
|---|---|---|
| Text.ContainsIff | main.py:265-288 | Python's substring test `t in s` holds exactly when t occurs at some index of s |
| Text.StripMeetsSpec | main.py:247 | `strip()` returns a slice of its input; only whitespace is cut from either end, and the result neither starts nor ends with whitespace |
| Text.StripUnique | main.py:247 | any slice meeting that description is the result of `strip()` |
| Text.StripIdempotent | main.py:247 | stripping a stripped text changes nothing |
| Text.LowerIdempotent | main.py:258-259 | lower-casing twice gives the same string as lower-casing once |
| Text.SplitOnce | main.py:227 | `split(' ', 1)` gives one part exactly when there is no space; otherwise the parts are the text before the first space and the text after it |
| Text.DecimalStringInjective | main.py:48 | `str(user_id)` maps different chat ids to different dictionary keys |
| UserStore.WithCity | main.py:46-55 | after `set_user_city` the record exists, its city is the given one and it is subscribed; other keys of an existing record are kept; other records are unchanged |
| UserStore.OrderWithKeepsKeysInOrder | main.py:50-51 | a new key goes to the end of the JSON object, which keeps every key listed exactly once |
| UserStore.WithoutSubscription | main.py:66-74 | `unsubscribe_user` sets the flag of an existing record to false and keeps its city; an absent key leaves the dictionary unchanged |
| UserStore.WithCityKeepsCitiesNonEmpty | main.py:46-55 | storing a non-empty city keeps every subscribed record's city a non-empty string |
| UserStore.WithoutSubscriptionKeepsCitiesNonEmpty | main.py:66-74 | unsubscribing keeps every remaining subscribed record's city a non-empty string |
| UserStore.SubscribedExactly | main.py:57-64 | a user is listed exactly when the record's "subscribed" value is truthy, and it is listed with its stored city |
| UserStore.SubscribedInOrder | main.py:61-63 | the listed user ids are a subsequence of the file's key order |
| UserStore.SubscribedOnce | main.py:61-63 | no user is listed twice |
| UserStore.SetCityIdempotent | main.py:50-54 | a second `set_user_city` with the same city gives the same dictionary and key order |
| UserStore.SetCityOthersUnchanged | main.py:46-55 | setting one chat's city leaves every other chat's city and subscription unchanged |
| UserStore.UnsubscribeOthersUnchanged | main.py:66-74 | unsubscribing one chat leaves every other chat's city and subscription unchanged |
| UserStore.UnsubscribeKeepsCity | main.py:70-73 | after set then unsubscribe, `get_user_city` still gives the city, and the user is no longer listed |
| UserStore.ResubscribeListedOnce | main.py:46-74 | after subscribe, unsubscribe and subscribe again with another city, the user is listed exactly once, with the new city |
| UserStore.Store.constructor | main.py:31-36 | a missing file or a file that is not valid JSON loads as the empty dictionary |
| UserStore.Store.Save | main.py:38-40 | saving replaces the whole dictionary |
| UserStore.Store.GetCity | main.py:42-44 | returns the stored city, or None when there is no record or no city |
| UserStore.Store.SetCity | main.py:46-55 | the new dictionary is `WithCity` of the old one; a new key is appended to the key order; the file is written once |
| UserStore.Store.SubscribedUsers | main.py:57-64 | the loop returns `Subscribed` of the file: exactly the truthy-flagged users with their cities, each once |
| UserStore.Store.Unsubscribe | main.py:66-74 | returns whether the record existed; the dictionary becomes `WithoutSubscription`; the file is written only if the record existed |
| Weather.ClassifyIsFirstMatch | main.py:265-288 | the if/elif chain picks the same outcome as a first-match search over the priority list of (test, outcome) pairs |
| Weather.ClassifyPicksFirstHolding | main.py:265-288 | the outcome at position k is picked exactly when its test holds and every earlier test fails |
| Weather.ClassifyHolds | main.py:265-288 | the chosen outcome's own test holds |
| Weather.SnowWithRainFirst | main.py:265-267 | a description with both "снег" and "дождь" gives snow-with-rain, whatever the other tests say |
| Weather.DefaultWhenNothingMatches | main.py:286-288 | when no test matches, the picture is "Солнечно.jpg" and the comment is "Погода: " followed by the description |
| Weather.RainWithSnowExample | main.py:265-267 | "snow" with the description "дождь со снегом" gives snow-with-rain |
| Weather.LookupStatus | main.py:254-307 | only status 200 produces a classified report; any other status gets the "no such city" reply |
| Weather.LookupIgnoresCase | main.py:258-259 | the reply does not depend on the letter case of "main" and "description" |
| Forecast.Window | main.py:323 | at most the first eight entries are used, in their order |
| Forecast.MaxOf | main.py:343 | `max` returns an element of the list that is at least every element |
| Forecast.MinOf | main.py:344 | `min` returns an element of the list that is at most every element |
| Forecast.Summarise | main.py:323-344 | the loop over the entries gives `SummaryOf`; there is no summary exactly when the list is empty |
| Forecast.SummaryUsesFirstEight | main.py:323 | entries after the eighth do not change the summary |
| Forecast.SummaryBounds | main.py:342-344 | min ≤ max; every used temperature lies between them, and both are temperatures of used entries |
| Forecast.RainTimesExactly | main.py:337-338 | a time label is in the rain list exactly when some used entry with that label mentions rain |
| Forecast.SnowTimesExactly | main.py:339-340 | a time label is in the snow list exactly when some used entry with that label mentions snow |
| Forecast.PeriodsInOrder | main.py:329-340 | the rain and snow lists are subsequences of the entries' time labels, in entry order |
| Forecast.EntryInBothLists | main.py:337-340 | one entry can be in both the rain list and the snow list |
| Forecast.AllClearIff | main.py:356-367 | the all-clear line is appended exactly when both lists are empty |
| Forecast.RemindersIff | main.py:356-364 | the umbrella line is appended exactly when rain is expected, and the warm-clothes line exactly when snow is expected |
| Forecast.EightTemperaturesExample | main.py:343-344 | for the temperatures 1, 3, 5, 2, 4, 6, 0, 5 the maximum is 6 and the minimum is 0 |
| Forecast.SendDailyWeather | main.py:309-377 | the log is `Deliveries` of the subscriber snapshot: one outcome per subscriber, in list order, each decided by that user's own request (morning message with its lines, apology for a non-200 status, or logged failure) |
| Forecast.DeliveriesAt | main.py:312-377 | the outcome at position i of a run is the one for the i-th subscriber and that subscriber's own request |
| Forecast.FailureIsolated | main.py:312-377 | two runs whose requests differ only for one user give every other user the same outcome at the same position |
| Forecast.EmptyForecastSendsNothing | main.py:342 | an empty forecast list leads to no message for that user |
| Forecast.PrecipitationExpected | main.py:329-340 | the rain list is non-empty exactly when some entry mentions rain, and the same for snow |
| Forecast.MorningLines | main.py:323-371 | for a 200 answer a morning message is sent exactly when the list is not empty; it has the umbrella line exactly when one of the first eight entries mentions rain, the warm-clothes line exactly when one mentions snow, and the all-clear line exactly when none mentions either |
| Router.OnText | main.py:232-248 | free text is ignored exactly when it starts with "/" or is one of the five button labels; otherwise the stripped text is looked up |
| Router.OnTextCityIsTrimmed | main.py:247 | the looked-up city is a slice of the text with only surrounding whitespace removed, and has nothing left to strip |
| Router.OnWeatherCommand | main.py:224-230 | `/weather` gets the usage reply exactly when the text has no space; otherwise the city is the stripped text after the first space |
| Router.WeatherCommandRoundTrip | main.py:227 | "/weather " followed by a city looks up that city, stripped |
| Flows.SubscribeConfirmsIffStored | main.py:131-159 | the subscription answer is confirmed exactly when it is stored, and the stored city is the non-empty stripped answer |
| Flows.SubscribeKeepsCitiesNonEmpty | main.py:138-159 | the subscription answer stores only a non-empty city, so every subscriber keeps a non-empty city |
| Flows.ConfirmationNamesCity | main.py:153-189 | the confirmation sent after subscribing or changing the city contains the stripped city that was stored |
| Flows.ProgressSubscription | main.py:127-166 | an empty answer, a non-200 status or a failed request changes nothing; a 200 answer is stored with one write and confirmed; every subscriber keeps a non-empty city if all had one |
| Flows.AskNewCity | main.py:168-176 | the prompt mentions the stored city exactly when that city is truthy |
| Flows.ProgressCityChange | main.py:178-196 | a 200 answer stores the stripped text, even an empty one, with one write; anything else changes nothing |
| Flows.ChangeCitySubscribes | main.py:178-196 | after a city change the user is listed with the new city |
| Flows.ChangeCityStoresEmptyCity | main.py:178-188 | a blank answer that the provider accepts is confirmed as the empty city and leaves a subscribed record whose city is the empty string |
| Flows.CheckedChangeCityConfirmsIffStored | main.py:178-196 | with the empty-name test of main.py:138-141 added, a change is confirmed exactly when the stripped answer is non-empty and the provider answers 200 |
| Flows.ProgressCityChangeChecked | main.py:178-196 | with that test, a blank answer changes nothing, a stored answer is stored as in `progress_city_change`, and every subscriber keeps a non-empty city if all had one |
| Flows.HandleUnsubscribe | main.py:198-204 | the reply says whether a record existed; the file is written once when it did and not at all otherwise; every subscriber keeps a non-empty city if all had one |

## Left out

- Telegram I/O is not modelled. That covers sending messages, replies and
  photos, the keyboards (main.py:76-85), and the `/id`, `/site` and `/start`
  handlers and the help text, which send text built only from the message's
  user fields.
- The library's choice among handlers and its one-shot "next step"
  continuations are not modelled, because they are library code. The text
  decisions of main.py are modelled as functions on the message text.
- HTTP requests to the weather provider, their URLs and timeouts are not
  modelled. Each answer is a parameter.
- A user file that cannot be opened, or that is not valid UTF-8, is not
  modelled. `load_user_data` catches only `FileNotFoundError` and
  `json.JSONDecodeError` (main.py:33-36), so such a file raises to the caller.
- An answer to a "next step" prompt that is not text, such as a photo or a
  sticker, is not modelled. `process_weather_request` (main.py:118),
  `progress_subscription` (main.py:131) and `progress_city_change`
  (main.py:179) call `message.text.strip()` outside their `try`, so such an
  answer raises `AttributeError`: no reply is sent and the store is
  unchanged. `Flows.ProgressSubscription` and `Flows.ProgressCityChange`
  take the answer as a string.
- The reading and writing of the JSON file are not modelled. The store
  starts empty, as `load_user_data` does for a missing file or invalid JSON.
- A file written by hand whose top level or records are not JSON objects is
  not modelled. `Record` is always a JSON object.
- The key order inside a record is not modelled. Only the order of the
  top-level keys is.
- JSON numbers are integers in the model. Floating point is left out, so
  truthiness covers integers only.
- Temperatures are integers.
- The average temperature is not modelled. It is a floating-point division
  with Python's `round`.
- The first part of the morning message is left out: the header with the
  city name and the temperature figures. Only the summary values and the
  precipitation lines are modelled.
- The forecast time labels are given as input. They come from
  `datetime.fromtimestamp(...).strftime('%H:%M')`, which depends on the
  time zone.
- The text of the current-weather reply is left out: temperature,
  feels-like, humidity, and the city name with `title()`. The photo lookup
  and the missing-folder warning are left out too. The model keeps the
  classification, the picture name and the comment.
- `str.lower()` maps only A–Z, А–Я and Ё to lower case. Every other
  character is unchanged in the model, including capitals such as É, Є, І
  and Ў that Python lowers. Full Unicode case mapping is left out.
- Send failures in the broadcast are not modelled. A `send_message` that
  raises is caught by the same handler. Only request failures and malformed
  payloads (`Raised`) are modelled.
- An exception raised while saving after a 200 answer in the subscription
  and city-change flows is not modelled. The store never fails in the model.
- The scheduler thread, the 05:00 trigger and the 60-second polling are not
  modelled. They depend on time and concurrency.
- Races between the handlers and the broadcast on the shared file are not
  modelled.
- The start-up checks of the environment variables (main.py:14-24) are not
  modelled.
- flask_app.py is not part of this model. It has two routes that return
  constant strings.
- A 200 answer whose current-weather payload is malformed is not modelled.
  An example is an empty `weather` list (main.py:258). In `weather_command`
  the `except IndexError` also wraps `get_weather_data` (main.py:226-230),
  so such a payload there gets the usage reply. `Weather.Response` always
  carries a well-formed "main" and "description".
- Weather.LookupStatus: the reply to a request that raises is modelled as
  `Unhandled`. It does not model the error logging the chat library does
  for such a handler.

## Findings

| source | as written | input that shows it | evidently intended | confidence | as-written member | corrected member |
|---|---|---|---|---|---|---|
| main.py:178-188 | `progress_city_change` stores `message.text.strip()` and sets "subscribed" whenever the provider answers 200, with no test for an empty name | the answer "   ", for which the provider answers 200 | a blank answer is refused, as `progress_subscription` does at main.py:138-141, so every subscribed record keeps a non-empty city | low: not executed; it depends on the provider answering 200 for a blank city | Flows.ChangeCityStoresEmptyCity | Flows.ProgressCityChangeChecked |
