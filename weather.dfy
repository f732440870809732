/**
 Current-weather lookup: the reply to a city name, and the classification of
 the provider's condition into one of eight (picture, comment) outcomes by an
 ordered chain of substring tests on the lower-cased "main" and "description"
 fields. The first test that holds wins.
 */
module Weather {
  import opened Text

  /** The eight outcomes of the classification chain, in the order they are tried. */
  datatype Condition =
    | SnowWithRain
    | Thunderstorm
    | Snow
    | Rain
    | Clouds
    | Clear
    | Mist
    | Unclassified

  /** The classification chain, on the already lower-cased `main` and `description`. */
  function Classify(main: string, desc: string): Condition
  {
    if (Contains(desc, "снег") && Contains(desc, "дождь")) || (Contains(main, "snow") && Contains(desc, "rain")) then SnowWithRain
    else if Contains(main, "thunderstorm") || Contains(desc, "гроза") then Thunderstorm
    else if Contains(main, "snow") || Contains(desc, "снег") then Snow
    else if Contains(main, "rain") || Contains(main, "drizzle") || Contains(desc, "дождь") then Rain
    else if Contains(main, "clouds") || Contains(desc, "облачно") then Clouds
    else if Contains(main, "clear") || Contains(desc, "ясно") then Clear
    else if Contains(main, "mist") || Contains(main, "fog") || Contains(desc, "туман") then Mist
    else Unclassified
  }

  /** The picture file sent after the reply. */
  function Image(c: Condition): string
  {
    match c
    case SnowWithRain => "Снег с дождём.png"
    case Thunderstorm => "Молнии.png"
    case Snow => "Снег.png"
    case Rain => "Дождик.png"
    case Clouds => "Облачно.png"
    case Clear => "Солнечно.jpg"
    case Mist => "туман.png"
    case Unclassified => "Солнечно.jpg"
  }

  /** The comment line of the reply; the unclassified case quotes the description. */
  function Comment(c: Condition, desc: string): string
  {
    match c
    case SnowWithRain => "❄️🌧️ Снег с дождем! Одевайся теплее и бери зонт."
    case Thunderstorm => "⚡ Осторожно! Возможна гроза. Лучше остаться в помещении."
    case Snow => "❄️ Сегодня снег! Одевайся теплее."
    case Rain => "🌧️ Не забудь зонтик! Сегодня ожидается дождь."
    case Clouds => "☁️ Сегодня облачно."
    case Clear => "☀️ Сегодня солнечно! Отличный день для прогулки."
    case Mist => "🌫️ Сегодня туман. Будь осторожен на дороге."
    case Unclassified => "Погода: " + desc
  }

  /* ---------------- the chain as an ordered list of (test, outcome) pairs ---------------- */

  /** A substring test on the two fields. */
  datatype Test =
    | InMain(token: string)
    | InDesc(token: string)
    | Both(left: Test, right: Test)
    | Either(left: Test, right: Test)
    | Always

  function Eval(t: Test, main: string, desc: string): bool
  {
    match t
    case InMain(token) => Contains(main, token)
    case InDesc(token) => Contains(desc, token)
    case Both(l, r) => Eval(l, main, desc) && Eval(r, main, desc)
    case Either(l, r) => Eval(l, main, desc) || Eval(r, main, desc)
    case Always => true
  }

  /** The test that selects each outcome. */
  function TestOf(c: Condition): Test
  {
    match c
    case SnowWithRain => Either(Both(InDesc("снег"), InDesc("дождь")), Both(InMain("snow"), InDesc("rain")))
    case Thunderstorm => Either(InMain("thunderstorm"), InDesc("гроза"))
    case Snow => Either(InMain("snow"), InDesc("снег"))
    case Rain => Either(Either(InMain("rain"), InMain("drizzle")), InDesc("дождь"))
    case Clouds => Either(InMain("clouds"), InDesc("облачно"))
    case Clear => Either(InMain("clear"), InDesc("ясно"))
    case Mist => Either(Either(InMain("mist"), InMain("fog")), InDesc("туман"))
    case Unclassified => Always
  }

  predicate Holds(c: Condition, main: string, desc: string)
  {
    Eval(TestOf(c), main, desc)
  }

  /** The order in which the outcomes are tried. */
  const Priority: seq<Condition> := [SnowWithRain, Thunderstorm, Snow, Rain, Clouds, Clear, Mist, Unclassified]

  /** The first outcome of the list whose test holds (Unclassified when none does). */
  function FirstMatch(order: seq<Condition>, main: string, desc: string): Condition
  {
    if order == [] then Unclassified
    else if Holds(order[0], main, desc) then order[0]
    else FirstMatch(order[1..], main, desc)
  }

  /** Each outcome's test, written out as the chain tests it. */
  lemma HoldsExplicit(main: string, desc: string)
    ensures Holds(SnowWithRain, main, desc)
        == ((Contains(desc, "снег") && Contains(desc, "дождь")) || (Contains(main, "snow") && Contains(desc, "rain")))
    ensures Holds(Thunderstorm, main, desc) == (Contains(main, "thunderstorm") || Contains(desc, "гроза"))
    ensures Holds(Snow, main, desc) == (Contains(main, "snow") || Contains(desc, "снег"))
    ensures Holds(Rain, main, desc) == (Contains(main, "rain") || Contains(main, "drizzle") || Contains(desc, "дождь"))
    ensures Holds(Clouds, main, desc) == (Contains(main, "clouds") || Contains(desc, "облачно"))
    ensures Holds(Clear, main, desc) == (Contains(main, "clear") || Contains(desc, "ясно"))
    ensures Holds(Mist, main, desc) == (Contains(main, "mist") || Contains(main, "fog") || Contains(desc, "туман"))
    ensures Holds(Unclassified, main, desc)
  {
    assert Eval(Both(InDesc("снег"), InDesc("дождь")), main, desc) == (Contains(desc, "снег") && Contains(desc, "дождь"));
    assert Eval(Both(InMain("snow"), InDesc("rain")), main, desc) == (Contains(main, "snow") && Contains(desc, "rain"));
    assert Eval(Either(InMain("rain"), InMain("drizzle")), main, desc) == (Contains(main, "rain") || Contains(main, "drizzle"));
    assert Eval(Either(InMain("mist"), InMain("fog")), main, desc) == (Contains(main, "mist") || Contains(main, "fog"));
    assert Eval(InMain("thunderstorm"), main, desc) == Contains(main, "thunderstorm");
    assert Eval(InDesc("гроза"), main, desc) == Contains(desc, "гроза");
    assert Eval(InDesc("дождь"), main, desc) == Contains(desc, "дождь");
    assert Eval(InMain("clouds"), main, desc) == Contains(main, "clouds");
    assert Eval(InDesc("облачно"), main, desc) == Contains(desc, "облачно");
    assert Eval(InMain("clear"), main, desc) == Contains(main, "clear");
    assert Eval(InDesc("ясно"), main, desc) == Contains(desc, "ясно");
    assert Eval(InDesc("туман"), main, desc) == Contains(desc, "туман");
    assert Eval(InMain("snow"), main, desc) == Contains(main, "snow");
    assert Eval(InDesc("снег"), main, desc) == Contains(desc, "снег");
  }

  /** The chain and the ordered list pick the same outcome for every input. */
  lemma ClassifyIsFirstMatch(main: string, desc: string)
    ensures Classify(main, desc) == FirstMatch(Priority, main, desc)
  {
    HoldsExplicit(main, desc);
    var p := Priority;
    FirstMatchStep(p, 0, main, desc);
    FirstMatchStep(p, 1, main, desc);
    FirstMatchStep(p, 2, main, desc);
    FirstMatchStep(p, 3, main, desc);
    FirstMatchStep(p, 4, main, desc);
    FirstMatchStep(p, 5, main, desc);
    FirstMatchStep(p, 6, main, desc);
    FirstMatchStep(p, 7, main, desc);
    assert p[0..] == p;
  }

  lemma FirstMatchStep(order: seq<Condition>, k: nat, main: string, desc: string)
    requires k < |order|
    ensures FirstMatch(order[k..], main, desc)
         == if Holds(order[k], main, desc) then order[k] else FirstMatch(order[k + 1..], main, desc)
  {
    assert order[k..][1..] == order[k + 1..];
  }

  /** The outcomes of the priority order are pairwise different, and the fallback comes last. */
  lemma PriorityWellFormed()
    ensures forall i, j :: 0 <= i < j < |Priority| ==> Priority[i] != Priority[j]
    ensures Priority[|Priority| - 1] == Unclassified
  {
  }

  /** The first match of a list ending in the fallback is one of its elements. */
  lemma {:induction false} FirstMatchIn(order: seq<Condition>, main: string, desc: string)
    requires order != [] && order[|order| - 1] == Unclassified
    ensures FirstMatch(order, main, desc) in order
  {
    if !Holds(order[0], main, desc) {
      assert Holds(Unclassified, main, desc);
      FirstMatchIn(order[1..], main, desc);
    }
  }

  /**
   In a list of distinct outcomes ending in the fallback, the first match is the
   element at position k exactly when its test holds and no earlier test does.
   */
  lemma {:induction false} FirstMatchIsFirst(order: seq<Condition>, main: string, desc: string, k: nat)
    requires k < |order| && order[|order| - 1] == Unclassified
    requires forall i, j :: 0 <= i < j < |order| ==> order[i] != order[j]
    ensures FirstMatch(order, main, desc) == order[k]
        <==> Holds(order[k], main, desc) && forall j :: 0 <= j < k ==> !Holds(order[j], main, desc)
  {
    if Holds(order[0], main, desc) {
      assert FirstMatch(order, main, desc) == order[0];
    } else {
      assert Holds(Unclassified, main, desc);
      FirstMatchIn(order[1..], main, desc);
      if k > 0 {
        FirstMatchIsFirst(order[1..], main, desc, k - 1);
        assert forall j :: 0 <= j < k - 1 ==> order[1..][j] == order[j + 1];
      }
    }
  }

  /**
   The outcome at position k of the priority order is chosen exactly when its
   test holds and the tests of every earlier outcome fail.
   */
  lemma ClassifyPicksFirstHolding(main: string, desc: string, k: nat)
    requires k < |Priority|
    ensures Classify(main, desc) == Priority[k]
        <==> Holds(Priority[k], main, desc) && forall j :: 0 <= j < k ==> !Holds(Priority[j], main, desc)
  {
    ClassifyIsFirstMatch(main, desc);
    PriorityWellFormed();
    FirstMatchIsFirst(Priority, main, desc, k);
  }

  /** Every input gets an outcome whose test holds. */
  lemma ClassifyHolds(main: string, desc: string)
    ensures Holds(Classify(main, desc), main, desc)
  {
    HoldsExplicit(main, desc);
  }

  /** Snow and rain named together in the description win over every other test. */
  lemma SnowWithRainFirst(main: string, desc: string)
    requires Contains(desc, "снег") && Contains(desc, "дождь")
    ensures Classify(main, desc) == SnowWithRain
    ensures Image(Classify(main, desc)) == "Снег с дождём.png"
  {
  }

  /** When no token matches, the default picture is sent with the description quoted. */
  lemma DefaultWhenNothingMatches(main: string, desc: string)
    requires forall c :: c != Unclassified ==> !Holds(c, main, desc)
    ensures Classify(main, desc) == Unclassified
    ensures Image(Classify(main, desc)) == "Солнечно.jpg"
    ensures Comment(Classify(main, desc), desc) == "Погода: " + desc
  {
    ClassifyPicksFirstHolding(main, desc, 7);
    HoldsExplicit(main, desc);
    assert forall j :: 0 <= j < 7 ==> Priority[j] != Unclassified;
  }

  /** A description in the provider's Russian wording, "дождь со снегом", is classified as snow with rain. */
  lemma RainWithSnowExample()
    ensures Classify("snow", "дождь со снегом") == SnowWithRain
  {
    var desc := "дождь со снегом";
    assert desc == "" + "дождь" + " со снегом";
    ContainsInfix("", "дождь", " со снегом");
    assert desc == "дождь со " + "снег" + "ом";
    ContainsInfix("дождь со ", "снег", "ом");
    SnowWithRainFirst("snow", desc);
  }

  /* ---------------- get_weather_data ---------------- */

  /** What the current-weather request produced. */
  datatype Response =
    | Answered(status: int, main: string, desc: string)
    | RequestRaised

  /** What the bot does with it. */
  datatype Reply =
    | Report(condition: Condition, image: string, comment: string)
    | NoSuchCity
    | Unhandled

  /** The reply of `get_weather_data`: a classified report on status 200, "no such city" otherwise. */
  function Lookup(resp: Response): Reply
  {
    match resp
    case RequestRaised => Unhandled
    case Answered(status, main, desc) =>
      if status == 200 then
        var c := Classify(Lower(main), Lower(desc));
        Report(c, Image(c), Comment(c, Lower(desc)))
      else NoSuchCity
  }

  /** Only status 200 produces a report; any other status is answered with "no such city". */
  lemma LookupStatus(resp: Response)
    requires resp.Answered?
    ensures Lookup(resp).Report? <==> resp.status == 200
    ensures resp.status != 200 ==> Lookup(resp) == NoSuchCity
  {
  }

  /** The classification does not depend on the letter case the provider uses. */
  lemma LookupIgnoresCase(status: int, main: string, desc: string)
    ensures Lookup(Answered(status, main, desc)) == Lookup(Answered(status, Lower(main), Lower(desc)))
  {
    LowerIdempotent(main);
    LowerIdempotent(desc);
  }
}
