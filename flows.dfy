/**
 The message handlers that change the subscription store: the answer to
 "subscribe" (a city name, checked against the weather provider before it is
 stored), the answer to "change city" (checked the same way, but without the
 empty-name test), the "unsubscribe" button, and the prompt of "change city".
 */
module Flows {
  import opened Text
  import opened Json
  import opened UserStore

  /** What the check of a city name against the provider produced. */
  datatype Probe =
    | Status(code: int)
    | RequestFailed   // a requests.exceptions.RequestException
    | OtherFailure    // any other exception

  datatype Reply =
    | SubscribedTo(city: string)
    | NoCityGiven
    | SubscribeCityNotFound(city: string)
    | ConnectionError
    | OtherError
    | CityChangedTo(city: string)
    | ChangeCityNotFound
    | Unsubscribed
    | WasNotSubscribed

  /** The text sent for each reply. */
  function Message(r: Reply): string
  {
    match r
    case SubscribedTo(city) => "✅ Ты подписан на ежедневную рассылку погоды для города " + city + "!"
    case NoCityGiven => "❌ Вы не ввели город. Попробуйте снова."
    case SubscribeCityNotFound(city) => "❌ Город '" + city + "' не найден. Попробуйте:\n• Москва\n• London\n• Paris"
    case ConnectionError => "❌ Ошибка соединения. Попробуйте позже."
    case OtherError => "❌ Произошла ошибка. Попробуйте другой город."
    case CityChangedTo(city) => "✅ Город изменен на " + city + "!"
    case ChangeCityNotFound => "❌ Город не найден. Проверь название и попробуй снова."
    case Unsubscribed => "❌ Ты отписался от ежедневной рассылки."
    case WasNotSubscribed => "🤔 Ты не был подписан на рассылку."
  }

  /* ---------------- progress_subscription ---------------- */

  /** The subscription answer is stored only for a non-empty name the provider knows. */
  predicate SubscribeStores(text: string, probe: Probe)
  {
    Strip(text) != [] && probe == Status(200)
  }

  function SubscribeReply(text: string, probe: Probe): Reply
  {
    var city := Strip(text);
    if city == [] then NoCityGiven
    else match probe
      case Status(code) => if code == 200 then SubscribedTo(city) else SubscribeCityNotFound(city)
      case RequestFailed => ConnectionError
      case OtherFailure => OtherError
  }

  /** A confirmation is sent exactly when the city is stored, and the city stored is the non-empty stripped answer. */
  lemma SubscribeConfirmsIffStored(text: string, probe: Probe)
    ensures SubscribeReply(text, probe).SubscribedTo? <==> SubscribeStores(text, probe)
    ensures SubscribeStores(text, probe) ==> SubscribeReply(text, probe) == SubscribedTo(Strip(text))
    ensures SubscribeStores(text, probe) ==> Strip(text) != [] && Strip(Strip(text)) == Strip(text)
  {
    StripIdempotent(text);
  }

  /** Only a non-empty city is ever stored by the subscription answer, so every subscriber keeps a named city. */
  lemma SubscribeKeepsCitiesNonEmpty(users: Users, chatId: int, text: string, probe: Probe)
    requires CitiesNonEmpty(users)
    ensures CitiesNonEmpty(if SubscribeStores(text, probe) then WithCity(users, Key(chatId), Strip(text)) else users)
  {
    if SubscribeStores(text, probe) {
      WithCityKeepsCitiesNonEmpty(users, Key(chatId), Strip(text));
    }
  }

  /** `progress_subscription`: the answer to "Введите город для ежедневной рассылки:". */
  method ProgressSubscription(store: Store, chatId: int, text: string, probe: Probe) returns (reply: Reply)
    requires store.Valid()
    modifies store
    ensures store.Valid()
    ensures reply == SubscribeReply(text, probe)
    ensures SubscribeStores(text, probe) ==>
              && store.users == WithCity(old(store.users), Key(chatId), Strip(text))
              && store.order == OrderWith(old(store.order), old(store.users), Key(chatId))
              && store.saves == old(store.saves) + 1
    ensures !SubscribeStores(text, probe) ==> unchanged(store)
    ensures CitiesNonEmpty(old(store.users)) ==> CitiesNonEmpty(store.users)
  {
    ghost var before := store.users;
    if CitiesNonEmpty(before) {
      SubscribeKeepsCitiesNonEmpty(before, chatId, text, probe);
    }
    var city := Strip(text);
    if city == [] {
      reply := NoCityGiven;
      return;
    }
    match probe {
      case Status(code) =>
        if code == 200 {
          store.SetCity(chatId, city);
          reply := SubscribedTo(city);
        } else {
          reply := SubscribeCityNotFound(city);
        }
      case RequestFailed =>
        reply := ConnectionError;
      case OtherFailure =>
        reply := OtherError;
    }
  }

  /** The confirmation text names the city that was stored. */
  lemma ConfirmationNamesCity(text: string, probe: Probe)
    ensures SubscribeStores(text, probe) ==> Contains(Message(SubscribeReply(text, probe)), Strip(text))
    ensures probe == Status(200) ==> Contains(Message(ChangeCityReply(text, probe)), Strip(text))
  {
    var city := Strip(text);
    ContainsInfix("✅ Ты подписан на ежедневную рассылку погоды для города ", city, "!");
    ContainsInfix("✅ Город изменен на ", city, "!");
  }

  /* ---------------- ask_new_city and progress_city_change ---------------- */

  datatype Prompt = CurrentCityPrompt(current: JsonValue) | PlainPrompt

  /** `ask_new_city`: mention the stored city when there is a truthy one. */
  method AskNewCity(store: Store, chatId: int) returns (prompt: Prompt)
    ensures prompt.CurrentCityPrompt? <==> Truthy(CityOf(store.users, Key(chatId)))
    ensures prompt.CurrentCityPrompt? ==> prompt.current == CityOf(store.users, Key(chatId))
  {
    var current := store.GetCity(chatId);
    if Truthy(current) {
      prompt := CurrentCityPrompt(current);
    } else {
      prompt := PlainPrompt;
    }
  }

  function ChangeCityReply(text: string, probe: Probe): Reply
  {
    match probe
    case Status(code) => if code == 200 then CityChangedTo(Strip(text)) else ChangeCityNotFound
    case RequestFailed => ConnectionError
    case OtherFailure => OtherError
  }

  /** `progress_city_change`: the answer to the "change city" prompt; an empty answer goes to the provider too. */
  method ProgressCityChange(store: Store, chatId: int, text: string, probe: Probe) returns (reply: Reply)
    requires store.Valid()
    modifies store
    ensures store.Valid()
    ensures reply == ChangeCityReply(text, probe)
    ensures probe == Status(200) ==>
              && store.users == WithCity(old(store.users), Key(chatId), Strip(text))
              && store.order == OrderWith(old(store.order), old(store.users), Key(chatId))
              && store.saves == old(store.saves) + 1
    ensures probe != Status(200) ==> unchanged(store)
  {
    var city := Strip(text);
    match probe {
      case Status(code) =>
        if code == 200 {
          store.SetCity(chatId, city);
          reply := CityChangedTo(city);
        } else {
          reply := ChangeCityNotFound;
        }
      case RequestFailed =>
        reply := ConnectionError;
      case OtherFailure =>
        reply := OtherError;
    }
  }

  /** Changing the city also subscribes: the user is listed afterwards with the new city. */
  lemma ChangeCitySubscribes(order: seq<string>, users: Users, chatId: int, text: string)
    requires KeysInOrder(order, users)
    ensures var key := Key(chatId);
            Subscriber(key, JStr(Strip(text))) in Subscribed(OrderWith(order, users, key), WithCity(users, key, Strip(text)))
  {
    var key := Key(chatId);
    SubscribedExactly(OrderWith(order, users, key), WithCity(users, key, Strip(text)), Subscriber(key, JStr(Strip(text))));
  }

  /** A blank answer to the "change city" prompt that the provider accepts leaves a subscriber without a city. */
  lemma ChangeCityStoresEmptyCity(users: Users, chatId: int)
    ensures ChangeCityReply("   ", Status(200)) == CityChangedTo("")
    ensures var r := WithCity(users, Key(chatId), Strip("   "));
            && IsSubscribed(r, Key(chatId))
            && CityOf(r, Key(chatId)) == JStr("")
            && !CitiesNonEmpty(r)
  {
    assert StripsTo("   ", 0, 0);
    StripAllSpaces("   ", 0);
  }

  /** The answer to "change city" with the empty-name test of the subscription answer. */
  function CheckedChangeCityReply(text: string, probe: Probe): Reply
  {
    if Strip(text) == [] then NoCityGiven else ChangeCityReply(text, probe)
  }

  /** With the empty-name test, a change is confirmed exactly when the subscription answer would be stored. */
  lemma CheckedChangeCityConfirmsIffStored(text: string, probe: Probe)
    ensures CheckedChangeCityReply(text, probe).CityChangedTo? <==> SubscribeStores(text, probe)
    ensures SubscribeStores(text, probe) ==> CheckedChangeCityReply(text, probe) == CityChangedTo(Strip(text))
  {
  }

  /** `progress_city_change` with the empty-name test: a blank answer changes nothing, so every subscriber keeps a named city. */
  method ProgressCityChangeChecked(store: Store, chatId: int, text: string, probe: Probe) returns (reply: Reply)
    requires store.Valid()
    modifies store
    ensures store.Valid()
    ensures reply == CheckedChangeCityReply(text, probe)
    ensures SubscribeStores(text, probe) ==>
              && store.users == WithCity(old(store.users), Key(chatId), Strip(text))
              && store.order == OrderWith(old(store.order), old(store.users), Key(chatId))
              && store.saves == old(store.saves) + 1
    ensures !SubscribeStores(text, probe) ==> unchanged(store)
    ensures CitiesNonEmpty(old(store.users)) ==> CitiesNonEmpty(store.users)
  {
    ghost var before := store.users;
    if CitiesNonEmpty(before) {
      SubscribeKeepsCitiesNonEmpty(before, chatId, text, probe);
    }
    var city := Strip(text);
    if city == [] {
      reply := NoCityGiven;
      return;
    }
    reply := ProgressCityChange(store, chatId, text, probe);
  }

  /* ---------------- handle_unsubscribe ---------------- */

  /** The "unsubscribe" button: the reply says whether there was a record to unsubscribe. */
  method HandleUnsubscribe(store: Store, chatId: int) returns (reply: Reply)
    requires store.Valid()
    modifies store
    ensures store.Valid()
    ensures reply == if Key(chatId) in old(store.users) then Unsubscribed else WasNotSubscribed
    ensures store.users == WithoutSubscription(old(store.users), Key(chatId))
    ensures store.order == old(store.order)
    ensures store.saves == if reply == Unsubscribed then old(store.saves) + 1 else old(store.saves)
    ensures CitiesNonEmpty(old(store.users)) ==> CitiesNonEmpty(store.users)
  {
    ghost var before := store.users;
    if CitiesNonEmpty(before) {
      WithoutSubscriptionKeepsCitiesNonEmpty(before, Key(chatId));
    }
    var existed := store.Unsubscribe(chatId);
    if existed {
      reply := Unsubscribed;
    } else {
      reply := WasNotSubscribed;
    }
  }
}
