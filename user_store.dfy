/**
 The user subscription store: the JSON file that maps the string form of a
 chat id to a record `{"city": ..., "subscribed": ...}`. Every operation in
 the bot loads the whole file, changes the dictionary and writes it back; here
 the file is the `users` field of a `Store` object, `order` keeps the key
 order of the JSON object (which is the order Python's dict iterates in), and
 `saves` counts the writes.

 The functions before the class state what each operation does to the
 dictionary; the class methods are proved against them.
 */
module UserStore {
  import opened Text
  import opened Json
  import opened Seqs

  /** One user's JSON object; only "city" and "subscribed" are written by the bot. */
  type Record = map<string, JsonValue>

  type Users = map<string, Record>

  /** An element of the list `get_subscribed_users` returns. */
  datatype Subscriber = Subscriber(userId: string, city: JsonValue)

  /** The dictionary key of a chat id: `str(user_id)`. */
  function Key(userId: int): string
  {
    DecimalString(userId)
  }

  /** `user_data.get(key, {}).get('city')`. */
  function CityOf(users: Users, key: string): JsonValue
  {
    if key in users then Get(users[key], "city") else JNull
  }

  /** The record exists and its "subscribed" value is truthy. */
  predicate IsSubscribed(users: Users, key: string)
  {
    key in users && Truthy(Get(users[key], "subscribed"))
  }

  /** The key order and the dictionary agree: each key listed once, and only keys of the dictionary. */
  ghost predicate KeysInOrder(order: seq<string>, users: Users)
  {
    Distinct(order) && (forall k :: k in order <==> k in users)
  }

  /* ---------------- set_user_city ---------------- */

  /** The dictionary after `set_user_city`: the record is created if missing, then "city" and "subscribed" are overwritten. */
  function WithCity(users: Users, key: string, city: string): (r: Users)
    ensures r.Keys == users.Keys + {key}
    ensures CityOf(r, key) == JStr(city) && IsSubscribed(r, key)
    ensures r[key].Keys == (if key in users then users[key].Keys else {}) + {"city", "subscribed"}
    ensures key in users ==> forall f :: f in users[key] && f != "city" && f != "subscribed" ==> r[key][f] == users[key][f]
    ensures forall k :: k in users && k != key ==> r[k] == users[k]
  {
    var rec := if key in users then users[key] else map[];
    users[key := rec["city" := JStr(city)]["subscribed" := JBool(true)]]
  }

  /** A key new to the dictionary goes to the end of the JSON object. */
  function OrderWith(order: seq<string>, users: Users, key: string): seq<string>
  {
    if key in users then order else order + [key]
  }

  lemma OrderWithKeepsKeysInOrder(order: seq<string>, users: Users, key: string, city: string)
    requires KeysInOrder(order, users)
    ensures KeysInOrder(OrderWith(order, users, key), WithCity(users, key, city))
  {
  }

  /* ---------------- unsubscribe_user ---------------- */

  /** The dictionary after `unsubscribe_user`: an existing record gets "subscribed" false, otherwise nothing changes. */
  function WithoutSubscription(users: Users, key: string): (r: Users)
    ensures r.Keys == users.Keys
    ensures !IsSubscribed(r, key)
    ensures CityOf(r, key) == CityOf(users, key)
    ensures key !in users ==> r == users
    ensures key in users ==> r[key] == users[key]["subscribed" := JBool(false)]
    ensures forall k :: k in users && k != key ==> r[k] == users[k]
  {
    if key in users then users[key := users[key]["subscribed" := JBool(false)]] else users
  }

  /* ---------------- every subscriber has a city ---------------- */

  /** Every subscribed record names a non-empty city. */
  ghost predicate CitiesNonEmpty(users: Users)
  {
    forall k :: IsSubscribed(users, k) ==> CityOf(users, k).JStr? && CityOf(users, k).s != []
  }

  /** Setting a non-empty city keeps every subscriber's city non-empty. */
  lemma WithCityKeepsCitiesNonEmpty(users: Users, key: string, city: string)
    requires CitiesNonEmpty(users) && city != []
    ensures CitiesNonEmpty(WithCity(users, key, city))
  {
    var r := WithCity(users, key, city);
    forall k | IsSubscribed(r, k) ensures CityOf(r, k).JStr? && CityOf(r, k).s != [] {
      if k != key {
        assert r[k] == users[k];
        assert IsSubscribed(users, k);
      }
    }
  }

  /** Unsubscribing keeps every remaining subscriber's city non-empty. */
  lemma WithoutSubscriptionKeepsCitiesNonEmpty(users: Users, key: string)
    requires CitiesNonEmpty(users)
    ensures CitiesNonEmpty(WithoutSubscription(users, key))
  {
    var r := WithoutSubscription(users, key);
    forall k | IsSubscribed(r, k) ensures CityOf(r, k).JStr? && CityOf(r, k).s != [] {
      if k != key {
        assert r[k] == users[k];
        assert IsSubscribed(users, k);
      }
    }
  }

  /* ---------------- get_subscribed_users ---------------- */

  /** The subscribed users among the keys of `order`, in that order, each with its stored city. */
  function Subscribed(order: seq<string>, users: Users): seq<Subscriber>
  {
    if order == [] then []
    else
      var key := order[|order| - 1];
      Subscribed(order[..|order| - 1], users)
        + (if IsSubscribed(users, key) then [Subscriber(key, CityOf(users, key))] else [])
  }

  function UserIds(subs: seq<Subscriber>): (ids: seq<string>)
    ensures |ids| == |subs|
    ensures forall i :: 0 <= i < |subs| ==> ids[i] == subs[i].userId
  {
    seq(|subs|, i requires 0 <= i < |subs| => subs[i].userId)
  }

  /** Exactly the subscribed users are listed, with the city they have stored. */
  lemma {:induction false} SubscribedExactly(order: seq<string>, users: Users, s: Subscriber)
    ensures s in Subscribed(order, users)
        <==> s.userId in order && IsSubscribed(users, s.userId) && s.city == CityOf(users, s.userId)
  {
    if order != [] {
      var init := order[..|order| - 1];
      SubscribedExactly(init, users, s);
      assert order == init + [order[|order| - 1]];
    }
  }

  /** The listed users keep the order of the file's keys. */
  lemma {:induction false} SubscribedInOrder(order: seq<string>, users: Users)
    ensures IsSubsequence(UserIds(Subscribed(order, users)), order)
  {
    if order != [] {
      var init := order[..|order| - 1];
      var key := order[|order| - 1];
      SubscribedInOrder(init, users);
      var ids := UserIds(Subscribed(order, users));
      if IsSubscribed(users, key) {
        assert ids[..|ids| - 1] == UserIds(Subscribed(init, users));
      } else {
        assert ids == UserIds(Subscribed(init, users));
      }
    }
  }

  /** Each user is listed at most once. */
  lemma SubscribedOnce(order: seq<string>, users: Users)
    requires Distinct(order)
    ensures Distinct(UserIds(Subscribed(order, users)))
  {
    var ids := UserIds(Subscribed(order, users));
    SubscribedInOrder(order, users);
    SubsequenceOfDistinct(ids, order);
  }

  lemma {:induction false} SubsequenceOfDistinct(a: seq<string>, b: seq<string>)
    requires IsSubsequence(a, b) && Distinct(b)
    ensures Distinct(a)
    decreases |b|
  {
    if b != [] {
      var b' := b[..|b| - 1];
      if a != [] && a[|a| - 1] == b[|b| - 1] && IsSubsequence(a[..|a| - 1], b') {
        var a' := a[..|a| - 1];
        SubsequenceOfDistinct(a', b');
        SubsequenceElements(a', b');
        assert b[|b| - 1] !in b';
        forall i | 0 <= i < |a'| ensures a'[i] != a[|a| - 1] {
          assert a'[i] in b';
        }
      } else {
        SubsequenceOfDistinct(a, b');
      }
    }
  }

  /* ---------------- properties across operations ---------------- */

  /** `set_user_city` twice with the same city leaves the same file as once. */
  lemma SetCityIdempotent(order: seq<string>, users: Users, key: string, city: string)
    ensures WithCity(WithCity(users, key, city), key, city) == WithCity(users, key, city)
    ensures OrderWith(OrderWith(order, users, key), WithCity(users, key, city), key) == OrderWith(order, users, key)
  {
    var once := WithCity(users, key, city);
    assert once[key]["city" := JStr(city)]["subscribed" := JBool(true)] == once[key];
  }

  /** Setting one chat's city leaves every other chat's city and subscription as they were. */
  lemma SetCityOthersUnchanged(users: Users, userId: int, city: string, other: int)
    requires other != userId
    ensures CityOf(WithCity(users, Key(userId), city), Key(other)) == CityOf(users, Key(other))
    ensures IsSubscribed(WithCity(users, Key(userId), city), Key(other)) == IsSubscribed(users, Key(other))
  {
    DecimalStringInjective(userId, other);
  }

  /** Unsubscribing one chat leaves every other chat's city and subscription as they were. */
  lemma UnsubscribeOthersUnchanged(users: Users, userId: int, other: int)
    requires other != userId
    ensures CityOf(WithoutSubscription(users, Key(userId)), Key(other)) == CityOf(users, Key(other))
    ensures IsSubscribed(WithoutSubscription(users, Key(userId)), Key(other)) == IsSubscribed(users, Key(other))
  {
    DecimalStringInjective(userId, other);
  }

  /** After set_user_city then unsubscribe_user the city is still there, and the user is no longer listed. */
  lemma UnsubscribeKeepsCity(order: seq<string>, users: Users, key: string, city: string)
    ensures CityOf(WithoutSubscription(WithCity(users, key, city), key), key) == JStr(city)
    ensures forall s :: s in Subscribed(order, WithoutSubscription(WithCity(users, key, city), key)) ==> s.userId != key
  {
    var after := WithoutSubscription(WithCity(users, key, city), key);
    forall s | s in Subscribed(order, after) ensures s.userId != key {
      SubscribedExactly(order, after, s);
    }
  }

  /**
   Subscribe, unsubscribe, then subscribe again with another city: the user is
   listed exactly once, with the new city.
   */
  lemma ResubscribeListedOnce(order: seq<string>, users: Users, key: string, c1: string, c2: string)
    requires KeysInOrder(order, users)
    ensures var o1 := OrderWith(order, users, key);
            var u1 := WithCity(users, key, c1);
            var u2 := WithoutSubscription(u1, key);
            var subs := Subscribed(OrderWith(o1, u2, key), WithCity(u2, key, c2));
            && Subscriber(key, JStr(c2)) in subs
            && (forall s :: s in subs && s.userId == key ==> s.city == JStr(c2))
            && (forall i, j :: 0 <= i < j < |subs| && subs[i].userId == key ==> subs[j].userId != key)
  {
    var o1 := OrderWith(order, users, key);
    var u1 := WithCity(users, key, c1);
    var u2 := WithoutSubscription(u1, key);
    var o2 := OrderWith(o1, u2, key);
    var u3 := WithCity(u2, key, c2);
    var subs := Subscribed(o2, u3);
    OrderWithKeepsKeysInOrder(order, users, key, c1);
    assert o2 == o1;
    SubscribedExactly(o2, u3, Subscriber(key, JStr(c2)));
    forall s | s in subs && s.userId == key ensures s.city == JStr(c2) {
      SubscribedExactly(o2, u3, s);
    }
    SubscribedOnce(o2, u3);
  }

  /* ---------------- the store object ---------------- */

  class Store {
    var users: Users
    var order: seq<string>
    var saves: nat

    ghost predicate Valid()
      reads this
    {
      KeysInOrder(order, users)
    }

    /** `load_user_data` when the file is missing or is not valid JSON: the empty dictionary. */
    constructor ()
      ensures Valid() && users == map[] && order == [] && saves == 0
    {
      users := map[];
      order := [];
      saves := 0;
    }

    /** `save_user_data`: the whole dictionary is replaced. */
    method Save(newUsers: Users, newOrder: seq<string>)
      requires KeysInOrder(newOrder, newUsers)
      modifies this
      ensures Valid() && users == newUsers && order == newOrder && saves == old(saves) + 1
    {
      users := newUsers;
      order := newOrder;
      saves := saves + 1;
    }

    /** `get_user_city`: the stored city, or None when there is no record or no city in it. */
    method GetCity(userId: int) returns (city: JsonValue)
      ensures city == CityOf(users, Key(userId))
      ensures Key(userId) !in users ==> city == JNull
    {
      var key := Key(userId);
      if key in users {
        city := Get(users[key], "city");
      } else {
        city := JNull;
      }
    }

    /** `set_user_city`: store the city, mark the user subscribed and save. */
    method SetCity(userId: int, city: string)
      requires Valid()
      modifies this
      ensures Valid()
      ensures users == WithCity(old(users), Key(userId), city)
      ensures order == OrderWith(old(order), old(users), Key(userId))
      ensures saves == old(saves) + 1
    {
      var key := Key(userId);
      var rec: Record := map[];
      var newOrder := order + [key];
      if key in users {
        rec := users[key];
        newOrder := order;
      }
      rec := rec["city" := JStr(city)];
      rec := rec["subscribed" := JBool(true)];
      OrderWithKeepsKeysInOrder(order, users, key, city);
      Save(users[key := rec], newOrder);
    }

    /** `get_subscribed_users`: walk the keys in file order and keep those whose flag is truthy. */
    method SubscribedUsers() returns (subs: seq<Subscriber>)
      requires Valid()
      ensures subs == Subscribed(order, users)
      ensures forall s :: s in subs <==> IsSubscribed(users, s.userId) && s.city == CityOf(users, s.userId)
      ensures Distinct(UserIds(subs))
    {
      subs := [];
      var i := 0;
      while i < |order|
        invariant 0 <= i <= |order|
        invariant subs == Subscribed(order[..i], users)
      {
        var key := order[i];
        var data := users[key];
        if Truthy(Get(data, "subscribed")) {
          subs := subs + [Subscriber(key, Get(data, "city"))];
        }
        assert order[..i + 1][..i] == order[..i];
        i := i + 1;
      }
      assert order[..i] == order;
      forall s ensures s in subs <==> IsSubscribed(users, s.userId) && s.city == CityOf(users, s.userId) {
        SubscribedExactly(order, users, s);
      }
      SubscribedOnce(order, users);
    }

    /** `unsubscribe_user`: clear the flag of an existing record and save; report whether it existed. */
    method Unsubscribe(userId: int) returns (existed: bool)
      requires Valid()
      modifies this
      ensures Valid()
      ensures existed == (Key(userId) in old(users))
      ensures users == WithoutSubscription(old(users), Key(userId))
      ensures order == old(order)
      ensures saves == if existed then old(saves) + 1 else old(saves)
    {
      var key := Key(userId);
      existed := key in users;
      if existed {
        Save(users[key := users[key]["subscribed" := JBool(false)]], order);
      }
    }
  }
}
