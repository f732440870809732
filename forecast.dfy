/**
 The daily broadcast: for every subscribed user, the first eight forecast
 entries are summarised (highest and lowest temperature, the time labels of
 the entries that mention rain or snow) and the precipitation lines of the
 morning message are composed. A failure for one user is caught and the loop
 goes on with the next one.
 */
module Forecast {
  import opened Text
  import opened Json
  import opened Seqs
  import opened UserStore

  /** One forecast point: its local time slot, temperature, and the provider's "main" and "description". */
  datatype Entry = Entry(timeLabel: string, temp: int, main: string, desc: string)

  /** How many forecast points one summary looks at (`data['list'][:8]`). */
  const WindowSize: nat := 8

  function Window(entries: seq<Entry>): (w: seq<Entry>)
    ensures |w| <= WindowSize
    ensures |w| == if |entries| <= WindowSize then |entries| else WindowSize
    ensures w == entries[..|w|]
  {
    if |entries| <= WindowSize then entries else entries[..WindowSize]
  }

  predicate MentionsRain(e: Entry)
  {
    Contains(Lower(e.main), "rain") || Contains(Lower(e.desc), "дождь")
  }

  predicate MentionsSnow(e: Entry)
  {
    Contains(Lower(e.main), "snow") || Contains(Lower(e.desc), "снег")
  }

  function Temps(entries: seq<Entry>): (ts: seq<int>)
    ensures |ts| == |entries|
    ensures forall i :: 0 <= i < |entries| ==> ts[i] == entries[i].temp
  {
    if entries == [] then [] else Temps(entries[..|entries| - 1]) + [entries[|entries| - 1].temp]
  }

  function Labels(entries: seq<Entry>): (ls: seq<string>)
    ensures |ls| == |entries|
    ensures forall i :: 0 <= i < |entries| ==> ls[i] == entries[i].timeLabel
  {
    if entries == [] then [] else Labels(entries[..|entries| - 1]) + [entries[|entries| - 1].timeLabel]
  }

  /** The time labels of the entries that mention rain, in entry order. */
  function RainTimes(entries: seq<Entry>): seq<string>
  {
    if entries == [] then []
    else
      var e := entries[|entries| - 1];
      RainTimes(entries[..|entries| - 1]) + (if MentionsRain(e) then [e.timeLabel] else [])
  }

  /** The time labels of the entries that mention snow, in entry order. */
  function SnowTimes(entries: seq<Entry>): seq<string>
  {
    if entries == [] then []
    else
      var e := entries[|entries| - 1];
      SnowTimes(entries[..|entries| - 1]) + (if MentionsSnow(e) then [e.timeLabel] else [])
  }

  /** Python's `max` on a non-empty list. */
  function MaxOf(xs: seq<int>): (m: int)
    requires xs != []
    ensures m in xs
    ensures forall x :: x in xs ==> x <= m
  {
    if |xs| == 1 then xs[0]
    else
      var rest := MaxOf(xs[1..]);
      assert xs == [xs[0]] + xs[1..];
      if xs[0] >= rest then xs[0] else rest
  }

  /** Python's `min` on a non-empty list. */
  function MinOf(xs: seq<int>): (m: int)
    requires xs != []
    ensures m in xs
    ensures forall x :: x in xs ==> m <= x
  {
    if |xs| == 1 then xs[0]
    else
      var rest := MinOf(xs[1..]);
      assert xs == [xs[0]] + xs[1..];
      if xs[0] <= rest then xs[0] else rest
  }

  /** What the morning message reports, apart from the average temperature. */
  datatype Summary = Summary(cityName: string, maxTemp: int, minTemp: int, rainTimes: seq<string>, snowTimes: seq<string>)

  /**
   The summary of a forecast: None when the list is empty, which in the bot is
   a division by zero when averaging, caught by the per-user handler.
   */
  function SummaryOf(cityName: string, entries: seq<Entry>): Option<Summary>
  {
    var w := Window(entries);
    if w == [] then None
    else Some(Summary(cityName, MaxOf(Temps(w)), MinOf(Temps(w)), RainTimes(w), SnowTimes(w)))
  }

  /** The loop of `send_daily_weather` over one user's forecast entries. */
  method Summarise(cityName: string, entries: seq<Entry>) returns (r: Option<Summary>)
    ensures r == SummaryOf(cityName, entries)
    ensures r.None? <==> entries == []
  {
    var window := if |entries| <= WindowSize then entries else entries[..WindowSize];
    var temps: seq<int> := [];
    var rain: seq<string> := [];
    var snow: seq<string> := [];
    var i := 0;
    while i < |window|
      invariant 0 <= i <= |window|
      invariant temps == Temps(window[..i])
      invariant rain == RainTimes(window[..i])
      invariant snow == SnowTimes(window[..i])
    {
      var e := window[i];
      var main := Lower(e.main);
      var desc := Lower(e.desc);
      temps := temps + [e.temp];
      if Contains(main, "rain") || Contains(desc, "дождь") {
        rain := rain + [e.timeLabel];
      }
      if Contains(main, "snow") || Contains(desc, "снег") {
        snow := snow + [e.timeLabel];
      }
      assert window[..i + 1][..i] == window[..i];
      i := i + 1;
    }
    assert window[..i] == window;
    if temps == [] {
      r := None;
    } else {
      r := Some(Summary(cityName, MaxOf(temps), MinOf(temps), rain, snow));
    }
  }

  /* ---------------- properties of the summary ---------------- */

  /** Only the first eight entries matter. */
  lemma SummaryUsesFirstEight(cityName: string, entries: seq<Entry>)
    requires |entries| >= WindowSize
    ensures SummaryOf(cityName, entries) == SummaryOf(cityName, entries[..WindowSize])
  {
  }

  /** The lowest temperature is at most the highest, and every temperature of the window lies between them. */
  lemma SummaryBounds(cityName: string, entries: seq<Entry>)
    requires entries != []
    ensures SummaryOf(cityName, entries).Some?
    ensures var s := SummaryOf(cityName, entries).value;
            && s.minTemp <= s.maxTemp
            && (forall e :: e in Window(entries) ==> s.minTemp <= e.temp <= s.maxTemp)
            && (exists e :: e in Window(entries) && e.temp == s.maxTemp)
            && (exists e :: e in Window(entries) && e.temp == s.minTemp)
  {
    var w := Window(entries);
    var ts := Temps(w);
    forall e | e in w ensures e.temp in ts {
      var i :| 0 <= i < |w| && w[i] == e;
      assert ts[i] == e.temp;
    }
    var i :| 0 <= i < |ts| && ts[i] == MaxOf(ts);
    assert w[i] in w;
    var j :| 0 <= j < |ts| && ts[j] == MinOf(ts);
    assert w[j] in w;
  }

  /** The rain labels are exactly the labels of the entries that mention rain. */
  lemma {:induction false} RainTimesExactly(entries: seq<Entry>, slot: string)
    ensures slot in RainTimes(entries) <==> exists i :: 0 <= i < |entries| && entries[i].timeLabel == slot && MentionsRain(entries[i])
  {
    if entries != [] {
      var init := entries[..|entries| - 1];
      RainTimesExactly(init, slot);
      if exists i :: 0 <= i < |entries| && entries[i].timeLabel == slot && MentionsRain(entries[i]) {
        var i :| 0 <= i < |entries| && entries[i].timeLabel == slot && MentionsRain(entries[i]);
        if i < |init| { assert init[i] == entries[i]; }
      }
      if exists i :: 0 <= i < |init| && init[i].timeLabel == slot && MentionsRain(init[i]) {
        var i :| 0 <= i < |init| && init[i].timeLabel == slot && MentionsRain(init[i]);
        assert entries[i] == init[i];
      }
    }
  }

  /** The snow labels are exactly the labels of the entries that mention snow. */
  lemma {:induction false} SnowTimesExactly(entries: seq<Entry>, slot: string)
    ensures slot in SnowTimes(entries) <==> exists i :: 0 <= i < |entries| && entries[i].timeLabel == slot && MentionsSnow(entries[i])
  {
    if entries != [] {
      var init := entries[..|entries| - 1];
      SnowTimesExactly(init, slot);
      if exists i :: 0 <= i < |entries| && entries[i].timeLabel == slot && MentionsSnow(entries[i]) {
        var i :| 0 <= i < |entries| && entries[i].timeLabel == slot && MentionsSnow(entries[i]);
        if i < |init| { assert init[i] == entries[i]; }
      }
      if exists i :: 0 <= i < |init| && init[i].timeLabel == slot && MentionsSnow(init[i]) {
        var i :| 0 <= i < |init| && init[i].timeLabel == slot && MentionsSnow(init[i]);
        assert entries[i] == init[i];
      }
    }
  }

  /** The rain and snow labels keep the order of the entries. */
  lemma {:induction false} PeriodsInOrder(entries: seq<Entry>)
    ensures IsSubsequence(RainTimes(entries), Labels(entries))
    ensures IsSubsequence(SnowTimes(entries), Labels(entries))
  {
    if entries != [] {
      var init := entries[..|entries| - 1];
      PeriodsInOrder(init);
      var ls := Labels(entries);
      assert ls[..|ls| - 1] == Labels(init);
      var rain := RainTimes(entries);
      if MentionsRain(entries[|entries| - 1]) {
        assert rain[..|rain| - 1] == RainTimes(init);
      } else {
        assert rain == RainTimes(init);
      }
      var snow := SnowTimes(entries);
      if MentionsSnow(entries[|entries| - 1]) {
        assert snow[..|snow| - 1] == SnowTimes(init);
      } else {
        assert snow == SnowTimes(init);
      }
    }
  }

  /** One entry may be reported both as rain and as snow. */
  lemma EntryInBothLists(slot: string, temp: int)
    ensures var e := Entry(slot, temp, "Snow", "дождь со снегом");
            RainTimes([e]) == [slot] && SnowTimes([e]) == [slot]
  {
    var e := Entry(slot, temp, "Snow", "дождь со снегом");
    assert [e][..0] == [];
    assert Lower("Snow") == "snow" by {
      assert Lower("Snow")[0] == 's';
    }
    assert "snow" == "" + "snow" + "";
    ContainsInfix("", "snow", "");
    assert Lower("дождь со снегом") == "дождь со снегом";
    assert "дождь со снегом" == "" + "дождь" + " со снегом";
    ContainsInfix("", "дождь", " со снегом");
  }

  /* ---------------- the precipitation lines of the morning message ---------------- */

  const RainHeading: string := "\n🌧️ Ожидается дождь в периоды: "
  const UmbrellaLine: string := "\n🚨 Не забудь зонтик! ☂️"
  const SnowHeading: string := "\n❄️ Ожидается снег в периоды: "
  const WarmClothesLine: string := "\n🧤 Одевайся теплее!"
  const AllClearLine: string := "\n✅ Осадков не ожидается. Хорошего дня! ☀️"

  /** The lines appended to the morning message after the temperatures, in order. */
  function PrecipitationLines(rain: seq<string>, snow: seq<string>): seq<string>
  {
    (if rain != [] then [RainHeading + Join(rain, ", "), UmbrellaLine] else [])
    + (if snow != [] then [SnowHeading + Join(snow, ", "), WarmClothesLine] else [])
    + (if rain == [] && snow == [] then [AllClearLine] else [])
  }

  /** Each line starts with a line break and a sign of its own, so no two kinds of line coincide. */
  lemma LineSigns(rain: seq<string>, snow: seq<string>)
    ensures (RainHeading + Join(rain, ", "))[1] == '🌧'
    ensures UmbrellaLine[1] == '🚨'
    ensures (SnowHeading + Join(snow, ", "))[1] == '❄'
    ensures WarmClothesLine[1] == '🧤'
    ensures AllClearLine[1] == '✅'
  {
  }

  /** The all-clear line is appended exactly when neither rain nor snow is expected. */
  lemma AllClearIff(rain: seq<string>, snow: seq<string>)
    ensures AllClearLine in PrecipitationLines(rain, snow) <==> rain == [] && snow == []
  {
    LineSigns(rain, snow);
    var r, s := RainHeading + Join(rain, ", "), SnowHeading + Join(snow, ", ");
    var lines := PrecipitationLines(rain, snow);
    if rain == [] && snow == [] {
      assert lines == [AllClearLine];
    } else if rain == [] {
      assert lines == [s, WarmClothesLine];
    } else if snow == [] {
      assert lines == [r, UmbrellaLine];
    } else {
      assert lines == [r, UmbrellaLine, s, WarmClothesLine];
    }
  }

  /** The umbrella reminder comes with the rain times and only then; the same for snow. */
  lemma RemindersIff(rain: seq<string>, snow: seq<string>)
    ensures UmbrellaLine in PrecipitationLines(rain, snow) <==> rain != []
    ensures WarmClothesLine in PrecipitationLines(rain, snow) <==> snow != []
  {
    LineSigns(rain, snow);
    var r, s := RainHeading + Join(rain, ", "), SnowHeading + Join(snow, ", ");
    var lines := PrecipitationLines(rain, snow);
    if rain == [] && snow == [] {
      assert lines == [AllClearLine];
    } else if rain == [] {
      assert lines == [s, WarmClothesLine];
    } else if snow == [] {
      assert lines == [r, UmbrellaLine];
    } else {
      assert lines == [r, UmbrellaLine, s, WarmClothesLine];
    }
  }

  /* ---------------- the broadcast loop ---------------- */

  /** What the forecast request for one user produced. */
  datatype FetchResult =
    | Fetched(status: int, cityName: string, entries: seq<Entry>)
    | Raised

  /** What the loop did for one user; a morning message carries its precipitation lines. */
  datatype Delivery =
    | Morning(userId: string, summary: Summary, lines: seq<string>)
    | Apology(userId: string, city: JsonValue)
    | Logged(userId: string)

  /** The outcome for one user, decided from that user's own request alone. */
  function DeliveryFor(s: Subscriber, f: FetchResult): Delivery
  {
    match f
    case Raised => Logged(s.userId)
    case Fetched(status, cityName, entries) =>
      if status != 200 then Apology(s.userId, s.city)
      else match SummaryOf(cityName, entries)
        case None => Logged(s.userId)
        case Some(summary) => Morning(s.userId, summary, PrecipitationLines(summary.rainTimes, summary.snowTimes))
  }

  /** The outcomes of one run of the loop over `subs`, in list order. */
  function Deliveries(subs: seq<Subscriber>, fetch: Subscriber -> FetchResult): seq<Delivery>
  {
    MapSeq(subs, s => DeliveryFor(s, fetch(s)))
  }

  /** The outcome at position i is the one for the i-th subscriber and its own request. */
  lemma DeliveriesAt(subs: seq<Subscriber>, fetch: Subscriber -> FetchResult)
    ensures |Deliveries(subs, fetch)| == |subs|
    ensures forall i :: 0 <= i < |subs| ==> Deliveries(subs, fetch)[i] == DeliveryFor(subs[i], fetch(subs[i]))
  {
    MapSeqAt(subs, s => DeliveryFor(s, fetch(s)));
  }

  /**
   `send_daily_weather`: take the subscriber list once, then handle each user
   in turn; `fetch` stands for the forecast request made for that user.
   */
  method SendDailyWeather(store: Store, fetch: Subscriber -> FetchResult) returns (log: seq<Delivery>)
    requires store.Valid()
    ensures log == Deliveries(Subscribed(store.order, store.users), fetch)
    ensures var subs := Subscribed(store.order, store.users);
            && |log| == |subs|
            && forall i :: 0 <= i < |subs| ==> log[i] == DeliveryFor(subs[i], fetch(subs[i]))
  {
    var subs := store.SubscribedUsers();
    log := [];
    var i := 0;
    while i < |subs|
      invariant 0 <= i <= |subs|
      invariant log == Deliveries(subs[..i], fetch)
    {
      var user := subs[i];
      var outcome: Delivery;
      match fetch(user) {
        case Raised =>
          outcome := Logged(user.userId);
        case Fetched(status, cityName, entries) =>
          if status == 200 {
            var summary := Summarise(cityName, entries);
            if summary.None? {
              outcome := Logged(user.userId);
            } else {
              var sm := summary.value;
              outcome := Morning(user.userId, sm, PrecipitationLines(sm.rainTimes, sm.snowTimes));
            }
          } else {
            outcome := Apology(user.userId, user.city);
          }
      }
      log := log + [outcome];
      assert subs[..i + 1][..i] == subs[..i];
      i := i + 1;
    }
    assert subs[..i] == subs;
    DeliveriesAt(subs, fetch);
  }

  /**
   Two runs whose requests differ only for user `u` send every other user the
   same outcome at the same position: a failure for one user costs only that
   user's message.
   */
  lemma FailureIsolated(subs: seq<Subscriber>, f1: Subscriber -> FetchResult, f2: Subscriber -> FetchResult, u: string)
    requires forall s :: s in subs && s.userId != u ==> f1(s) == f2(s)
    ensures |Deliveries(subs, f1)| == |Deliveries(subs, f2)| == |subs|
    ensures forall k :: 0 <= k < |subs| && subs[k].userId != u ==> Deliveries(subs, f1)[k] == Deliveries(subs, f2)[k]
  {
    DeliveriesAt(subs, f1);
    DeliveriesAt(subs, f2);
    forall k | 0 <= k < |subs| && subs[k].userId != u
      ensures Deliveries(subs, f1)[k] == Deliveries(subs, f2)[k]
    {
      assert subs[k] in subs;
    }
  }

  /** The rain list is non-empty exactly when some entry mentions rain; the same for snow. */
  lemma PrecipitationExpected(entries: seq<Entry>)
    ensures RainTimes(entries) != [] <==> exists e :: e in entries && MentionsRain(e)
    ensures SnowTimes(entries) != [] <==> exists e :: e in entries && MentionsSnow(e)
  {
    if RainTimes(entries) != [] {
      RainTimesExactly(entries, RainTimes(entries)[0]);
    }
    if exists e :: e in entries && MentionsRain(e) {
      var e :| e in entries && MentionsRain(e);
      var i :| 0 <= i < |entries| && entries[i] == e;
      RainTimesExactly(entries, e.timeLabel);
    }
    if SnowTimes(entries) != [] {
      SnowTimesExactly(entries, SnowTimes(entries)[0]);
    }
    if exists e :: e in entries && MentionsSnow(e) {
      var e :| e in entries && MentionsSnow(e);
      var i :| 0 <= i < |entries| && entries[i] == e;
      SnowTimesExactly(entries, e.timeLabel);
    }
  }

  /**
   The morning message a user gets for a forecast that answers 200: it is sent
   exactly when the list is not empty; it reminds of the umbrella exactly when
   one of the first eight entries mentions rain, of warm clothes exactly when
   one mentions snow, and wishes a dry day when none mentions either.
   */
  lemma MorningLines(s: Subscriber, cityName: string, entries: seq<Entry>)
    ensures var d := DeliveryFor(s, Fetched(200, cityName, entries));
            && (d.Morning? <==> entries != [])
            && (d.Morning? ==>
                  && (UmbrellaLine in d.lines <==> exists e :: e in Window(entries) && MentionsRain(e))
                  && (WarmClothesLine in d.lines <==> exists e :: e in Window(entries) && MentionsSnow(e))
                  && (AllClearLine in d.lines <==> forall e :: e in Window(entries) ==> !MentionsRain(e) && !MentionsSnow(e)))
  {
    var w := Window(entries);
    if w != [] {
      var sm := SummaryOf(cityName, entries).value;
      RemindersIff(sm.rainTimes, sm.snowTimes);
      AllClearIff(sm.rainTimes, sm.snowTimes);
      PrecipitationExpected(w);
    }
  }

  /** A city whose forecast list is empty gets no message at all. */
  lemma EmptyForecastSendsNothing(s: Subscriber, cityName: string)
    ensures DeliveryFor(s, Fetched(200, cityName, [])) == Logged(s.userId)
  {
  }

  /** The example of eight temperatures [1, 3, 5, 2, 4, 6, 0, 5]: the lowest is 0 and the highest 6. */
  lemma EightTemperaturesExample(ts: seq<int>)
    requires ts == [1, 3, 5, 2, 4, 6, 0, 5]
    ensures MaxOf(ts) == 6 && MinOf(ts) == 0
  {
    var hi, lo := MaxOf(ts), MinOf(ts);
    assert ts[5] in ts && ts[6] in ts;
    assert hi >= ts[5] && lo <= ts[6];
    assert forall i :: 0 <= i < |ts| ==> 0 <= ts[i] <= 6;
    var i :| 0 <= i < |ts| && ts[i] == hi;
    var j :| 0 <= j < |ts| && ts[j] == lo;
  }
}
