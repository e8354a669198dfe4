/** The persisted state of extensions/device-pair/notify.ts and its JSON form. */
module NotifyState {
  import opened Base
  import opened Text

  datatype Json =
    | JsonNull
    | JsonBool(b: bool)
    | JsonNumber(value: real)
    | JsonOverflow  // a literal beyond the double range, parsed as an infinity
    | JsonString(text: string)
    | JsonArray(items: seq<Json>)
    | JsonObject(fields: map<string, Json>)

  datatype Mode = Persistent | Once

  datatype Thread = NoThread | TextThread(text: string) | NumberThread(number: int)

  datatype Target = Target(to: string, accountId: Option<string>, thread: Thread)

  datatype Subscription = Subscription(target: Target, mode: Mode, addedAtMs: int)

  datatype State = State(subscribers: seq<Subscription>, notified: map<string, int>)

  const EMPTY_STATE := State([], map[])

  function ThreadText(thread: Thread): string {
    match thread
    case NoThread => ""
    case TextThread(text) => text
    case NumberThread(number) => SignedNumeral(number)
  }

  /** `notifySubscriberKey`. */
  function Key(target: Target): string {
    target.to + "|" + (if target.accountId.Some? then target.accountId.value else "") + "|" + ThreadText(target.thread)
  }

  // ---------------------------------------------------------------- reading

  /** The named entries of an object or array; anything else has none. */
  function Entries(json: Json): map<string, Json> {
    match json
    case JsonObject(fields) => fields
    case JsonArray(items) =>
      map k | k in (set i | 0 <= i < |items| :: Numeral(i)) && ParseDigits(k) < |items| :: items[ParseDigits(k)]
    case _ => map[]
  }

  function Field(json: Json, name: string): Json {
    if name in Entries(json) then Entries(json)[name] else JsonNull
  }

  function TrimmedText(json: Json): string {
    if json.JsonString? then Trim(json.text) else ""
  }

  function NormalizeThread(json: Json): Thread {
    match json
    case JsonString(text) => if Trim(text) == "" then NoThread else TextThread(Trim(text))
    case JsonNumber(value) => NumberThread(Trunc(value))
    case _ => NoThread
  }

  function OptionalText(text: string): Option<string> {
    if text == "" then None else Some(text)
  }

  function BuildSubscription(to: Json, accountId: Json, thread: Json, mode: Json, addedAtMs: Json, now: int)
    : Option<Subscription>
  {
    if TrimmedText(to) == "" then None
    else Some(Subscription(
                Target(TrimmedText(to), OptionalText(TrimmedText(accountId)), NormalizeThread(thread)),
                if mode == JsonString("once") then Once else Persistent,
                if addedAtMs.JsonNumber? then Trunc(addedAtMs.value) else now))
  }

  function NormalizeSubscriber(item: Json, now: int): Option<Subscription> {
    BuildSubscription(Field(item, "to"), Field(item, "accountId"), Field(item, "messageThreadId"),
                      Field(item, "mode"), Field(item, "addedAtMs"), now)
  }

  function NormalizeSubscribers(items: seq<Json>, now: int): (r: seq<Subscription>)
    ensures |r| <= |items|
  {
    if items == [] then []
    else
      var first := NormalizeSubscriber(items[0], now);
      (if first.Some? then [first.value] else []) + NormalizeSubscribers(items[1..], now)
  }

  predicate KeepsStamp(id: string, stamp: Json) {
    Trim(id) != "" && stamp.JsonNumber? && stamp.value > 0.0
  }

  function NormalizeNotified(entries: map<string, Json>): map<string, int> {
    map id | id in entries && KeepsStamp(id, entries[id]) :: Trunc(entries[id].value)
  }

  /** `normalizeNotifyState`. */
  function Normalize(raw: Json, now: int): State {
    var subscribers := Field(raw, "subscribers");
    State(NormalizeSubscribers(if subscribers.JsonArray? then subscribers.items else [], now),
          NormalizeNotified(Entries(Field(raw, "notifiedRequestIds"))))
  }

  // ---------------------------------------------------------------- writing

  function EncodeThread(thread: Thread): map<string, Json> {
    match thread
    case NoThread => map[]
    case TextThread(text) => map["messageThreadId" := JsonString(text)]
    case NumberThread(number) => map["messageThreadId" := JsonNumber(number as real)]
  }

  /** `JSON.stringify`: undefined fields are left out. */
  function EncodeSubscription(s: Subscription): Json {
    JsonObject(
      map["to" := JsonString(s.target.to),
          "mode" := JsonString(if s.mode == Once then "once" else "persistent"),
          "addedAtMs" := JsonNumber(s.addedAtMs as real)]
      + (if s.target.accountId.Some? then map["accountId" := JsonString(s.target.accountId.value)] else map[])
      + EncodeThread(s.target.thread))
  }

  function EncodeSubscribers(subscribers: seq<Subscription>): (r: seq<Json>)
    ensures |r| == |subscribers|
  {
    if subscribers == [] then []
    else [EncodeSubscription(subscribers[0])] + EncodeSubscribers(subscribers[1..])
  }

  function NotifiedJson(notified: map<string, int>): map<string, Json> {
    map id | id in notified :: JsonNumber(notified[id] as real)
  }

  function Encode(state: State): Json {
    JsonObject(map[
                 "subscribers" := JsonArray(EncodeSubscribers(state.subscribers)),
                 "notifiedRequestIds" := JsonObject(NotifiedJson(state.notified))])
  }

  // ---------------------------------------------------------------- round trip

  predicate CanonicalText(s: string) {
    s != "" && IsTrimmed(s)
  }

  predicate CanonicalTarget(t: Target) {
    && CanonicalText(t.to)
    && (t.accountId.Some? ==> CanonicalText(t.accountId.value))
    && (t.thread.TextThread? ==> CanonicalText(t.thread.text))
  }

  predicate CanonicalNotified(notified: map<string, int>) {
    forall id | id in notified :: Trim(id) != "" && notified[id] > 0
  }

  predicate CanonicalSubscribers(subscribers: seq<Subscription>) {
    forall i | 0 <= i < |subscribers| :: CanonicalTarget(subscribers[i].target)
  }

  predicate Canonical(state: State) {
    CanonicalSubscribers(state.subscribers) && CanonicalNotified(state.notified)
  }

  lemma TruncInteger(n: int)
    ensures Trunc(n as real) == n
  {
  }

  lemma SubscriptionFields(s: Subscription)
    ensures var json := EncodeSubscription(s);
            && Field(json, "to") == JsonString(s.target.to)
            && Field(json, "mode") == ModeJson(s.mode)
            && Field(json, "addedAtMs") == JsonNumber(s.addedAtMs as real)
            && Field(json, "accountId") == AccountJson(s.target.accountId)
            && Field(json, "messageThreadId") == ThreadJson(s.target.thread)
  {
  }

  function ThreadJson(thread: Thread): Json {
    match thread
    case NoThread => JsonNull
    case TextThread(text) => JsonString(text)
    case NumberThread(number) => JsonNumber(number as real)
  }

  lemma ThreadRoundTrip(thread: Thread)
    ensures NormalizeThread(ThreadJson(thread)) == thread <==> (thread.TextThread? ==> CanonicalText(thread.text))
  {
    match thread
    case NoThread =>
    case TextThread(text) => TrimmedFixpoint(text);
    case NumberThread(number) => TruncInteger(number);
  }

  function AccountJson(accountId: Option<string>): Json {
    if accountId.Some? then JsonString(accountId.value) else JsonNull
  }

  function ModeJson(mode: Mode): Json {
    JsonString(if mode == Once then "once" else "persistent")
  }

  lemma SubscriptionRoundTrip(s: Subscription, now: int)
    ensures NormalizeSubscriber(EncodeSubscription(s), now) == Some(s) <==> CanonicalTarget(s.target)
  {
    SubscriptionFields(s);
    BuildRoundTrip(s, now);
  }

  lemma BuildRoundTrip(s: Subscription, now: int)
    ensures BuildSubscription(JsonString(s.target.to), AccountJson(s.target.accountId), ThreadJson(s.target.thread),
                              ModeJson(s.mode), JsonNumber(s.addedAtMs as real), now) == Some(s) <==>
            CanonicalTarget(s.target)
  {
    ThreadRoundTrip(s.target.thread);
    TruncInteger(s.addedAtMs);
    TrimmedFixpoint(s.target.to);
    if s.target.accountId.Some? {
      TrimmedFixpoint(s.target.accountId.value);
    }
    assert "once"[0] != "persistent"[0];
  }

  lemma CanonicalSubscribersCons(first: Subscription, rest: seq<Subscription>)
    ensures CanonicalSubscribers([first] + rest) <==> CanonicalTarget(first.target) && CanonicalSubscribers(rest)
  {
    var all := [first] + rest;
    assert forall i | 0 <= i < |rest| :: rest[i] == all[i + 1];
    assert all[0] == first;
  }

  lemma {:induction false} SubscribersRoundTrip(subscribers: seq<Subscription>, now: int)
    ensures NormalizeSubscribers(EncodeSubscribers(subscribers), now) == subscribers <==>
            CanonicalSubscribers(subscribers)
  {
    if subscribers != [] {
      var first, rest := subscribers[0], subscribers[1..];
      SubscribersRoundTrip(rest, now);
      CanonicalSubscribersCons(first, rest);
      assert subscribers == [first] + rest;
      SubscriptionRoundTrip(first, now);
      SubscribersRoundTripStep(first, rest, now);
    }
  }

  lemma SubscribersRoundTripStep(first: Subscription, rest: seq<Subscription>, now: int)
    ensures NormalizeSubscribers(EncodeSubscribers([first] + rest), now) == [first] + rest <==>
            NormalizeSubscriber(EncodeSubscription(first), now) == Some(first)
            && NormalizeSubscribers(EncodeSubscribers(rest), now) == rest
  {
  }

  lemma NotifiedRoundTrip(notified: map<string, int>)
    ensures NormalizeNotified(NotifiedJson(notified)) == notified <==>
            CanonicalNotified(notified)
  {
  }

  lemma EncodedParts(state: State, now: int)
    ensures Normalize(Encode(state), now) ==
            State(NormalizeSubscribers(EncodeSubscribers(state.subscribers), now),
                  NormalizeNotified(NotifiedJson(state.notified)))
  {
    var json := Encode(state);
    assert Field(json, "subscribers") == JsonArray(EncodeSubscribers(state.subscribers));
    assert Entries(Field(json, "notifiedRequestIds")) == NotifiedJson(state.notified);
  }

  /** A written state is read back unchanged exactly when it is canonical. */
  lemma StateRoundTrip(state: State, now: int)
    ensures Normalize(Encode(state), now) == state <==> Canonical(state)
  {
    EncodedParts(state, now);
    SubscribersRoundTrip(state.subscribers, now);
    NotifiedRoundTrip(state.notified);
  }

  // ---------------------------------------------------------------- different states, different files

  lemma EncodeSubscriptionIsInjective(s: Subscription, t: Subscription)
    requires EncodeSubscription(s) == EncodeSubscription(t)
    ensures s == t
  {
    SubscriptionFields(s);
    SubscriptionFields(t);
    assert "once"[0] != "persistent"[0];
    TruncInteger(s.addedAtMs);
    TruncInteger(t.addedAtMs);
    ThreadsDiffer(s.target.thread, t.target.thread);
  }

  lemma ThreadsDiffer(a: Thread, b: Thread)
    requires ThreadJson(a) == ThreadJson(b)
    ensures a == b
  {
    if a.NumberThread? {
      TruncInteger(a.number);
      TruncInteger(b.number);
    }
  }

  lemma {:induction false} EncodeSubscribersIsInjective(a: seq<Subscription>, b: seq<Subscription>)
    requires EncodeSubscribers(a) == EncodeSubscribers(b)
    ensures a == b
  {
    assert |a| == |EncodeSubscribers(a)| == |b|;
    if a != [] {
      assert EncodeSubscribers(a)[0] == EncodeSubscription(a[0]) && EncodeSubscribers(b)[0] == EncodeSubscription(b[0]);
      assert EncodeSubscribers(a)[1..] == EncodeSubscribers(a[1..]);
      assert EncodeSubscribers(b)[1..] == EncodeSubscribers(b[1..]);
      EncodeSubscriptionIsInjective(a[0], b[0]);
      EncodeSubscribersIsInjective(a[1..], b[1..]);
      assert a == [a[0]] + a[1..] && b == [b[0]] + b[1..];
    }
  }

  lemma NotifiedJsonIsInjective(a: map<string, int>, b: map<string, int>)
    requires NotifiedJson(a) == NotifiedJson(b)
    ensures a == b
  {
    assert a.Keys == NotifiedJson(a).Keys == NotifiedJson(b).Keys == b.Keys;
    forall id | id in a ensures a[id] == b[id] {
      assert NotifiedJson(a)[id] == NotifiedJson(b)[id];
      TruncInteger(a[id]);
      TruncInteger(b[id]);
    }
  }

  /** No two states are written as the same file. */
  lemma EncodeIsInjective(s: State, t: State)
    requires Encode(s) == Encode(t)
    ensures s == t
  {
    assert Field(Encode(s), "subscribers") == Field(Encode(t), "subscribers");
    assert Field(Encode(s), "notifiedRequestIds") == Field(Encode(t), "notifiedRequestIds");
    EncodeSubscribersIsInjective(s.subscribers, t.subscribers);
    NotifiedJsonIsInjective(s.notified, t.notified);
  }

  // ---------------------------------------------------------------- normalizing any file

  lemma TrimIsCanonical(s: string)
    ensures Trim(s) != "" ==> CanonicalText(Trim(s))
  {
    TrimmedFixpoint(s);
  }

  lemma NormalizedSubscriber(item: Json, now: int)
    ensures var r := NormalizeSubscriber(item, now); r.Some? ==> CanonicalTarget(r.value.target)
  {
    var fields := [Field(item, "to"), Field(item, "accountId"), Field(item, "messageThreadId")];
    forall f | f in fields && f.JsonString? ensures Trim(f.text) != "" ==> CanonicalText(Trim(f.text)) {
      TrimIsCanonical(f.text);
    }
    assert fields[0] in fields && fields[1] in fields && fields[2] in fields;
  }

  lemma {:induction false} NormalizedSubscribers(items: seq<Json>, now: int)
    ensures CanonicalSubscribers(NormalizeSubscribers(items, now))
  {
    if items != [] {
      NormalizedSubscriber(items[0], now);
      NormalizedSubscribers(items[1..], now);
    }
  }

  /** No stamp of the file that is kept lies strictly between zero and one. */
  predicate NoFractionalStamp(raw: Json) {
    var entries := Entries(Field(raw, "notifiedRequestIds"));
    forall id | id in entries && KeepsStamp(id, entries[id]) :: entries[id].value >= 1.0
  }

  lemma TruncPositive(r: real)
    requires r > 0.0
    ensures Trunc(r) > 0 <==> r >= 1.0
  {
  }

  /**
   * Whatever the file holds, normalizing it and storing the result is stable, except that a kept
   * stamp below one is truncated to a zero that the next read drops.
   */
  lemma NormalizeIsIdempotent(raw: Json, now: int, later: int)
    ensures var state := Normalize(raw, now);
            Normalize(Encode(state), later) == state <==> NoFractionalStamp(raw)
  {
    var state := Normalize(raw, now);
    var entries := Entries(Field(raw, "notifiedRequestIds"));
    NormalizedSubscribers(if Field(raw, "subscribers").JsonArray? then Field(raw, "subscribers").items else [], now);
    StateRoundTrip(state, later);
    forall id | id in entries && KeepsStamp(id, entries[id])
      ensures id in state.notified && (state.notified[id] > 0 <==> entries[id].value >= 1.0)
    {
      TruncPositive(entries[id].value);
    }
  }

  /** A file with one stamp of a half: it is read as a zero, written, and gone at the next read. */
  lemma HalfStampIsLost(now: int, later: int)
    ensures var raw := JsonObject(map["notifiedRequestIds" := JsonObject(map["r" := JsonNumber(0.5)])]);
            "r" in Normalize(raw, now).notified && Normalize(Encode(Normalize(raw, now)), later) != Normalize(raw, now)
  {
    var stamps := JsonObject(map["r" := JsonNumber(0.5)]);
    var raw := JsonObject(map["notifiedRequestIds" := stamps]);
    assert Field(raw, "notifiedRequestIds") == stamps;
    TrimmedFixpoint("r");
    assert KeepsStamp("r", Entries(stamps)["r"]);
    NormalizeIsIdempotent(raw, now, later);
  }

  // ---------------------------------------------------------------- what any file is read as

  lemma FieldOfObject(fields: map<string, Json>, name: string)
    ensures Field(JsonObject(fields), name) == if name in fields then fields[name] else JsonNull
    ensures Field(JsonNull, name) == JsonNull
  {
  }

  predicate HasText(json: Json) {
    json.JsonString? && !IsBlank(json.text)
  }

  /** Whatever a subscriber entry holds: it is kept if `to` is a text that is not blank, its fields cleaned. */
  lemma SubscriberMeaning(item: Json, now: int)
    ensures var r := NormalizeSubscriber(item, now);
            var to, account, mode, added :=
              Field(item, "to"), Field(item, "accountId"), Field(item, "mode"), Field(item, "addedAtMs");
            && (r.Some? <==> HasText(to))
            && (r.Some? ==>
                  && r.value.target.to == Trim(to.text)
                  && (HasText(account) ==> r.value.target.accountId == Some(Trim(account.text)))
                  && (!HasText(account) ==> r.value.target.accountId == None)
                  && (r.value.mode == Once <==> mode == JsonString("once"))
                  && (added.JsonNumber? ==> r.value.addedAtMs == Trunc(added.value))
                  && (!added.JsonNumber? ==> r.value.addedAtMs == now))
  {
    var to, account := Field(item, "to"), Field(item, "accountId");
    if to.JsonString? {
      BlankIsTrimmedAway(to.text);
    }
    if account.JsonString? {
      BlankIsTrimmedAway(account.text);
    }
  }

  lemma ThreadMeaning(item: Json, now: int)
    requires NormalizeSubscriber(item, now).Some?
    ensures var thread, json := NormalizeSubscriber(item, now).value.target.thread, Field(item, "messageThreadId");
            && (HasText(json) ==> thread == TextThread(Trim(json.text)))
            && (json.JsonNumber? ==> thread == NumberThread(Trunc(json.value)))
            && (!HasText(json) && !json.JsonNumber? ==> thread == NoThread)
  {
    var json := Field(item, "messageThreadId");
    if json.JsonString? {
      BlankIsTrimmedAway(json.text);
    }
  }

  function Kept(item: Json, now: int): seq<Subscription> {
    var r := NormalizeSubscriber(item, now);
    if r.Some? then [r.value] else []
  }

  lemma SubscribersCons(first: Json, rest: seq<Json>, now: int)
    ensures NormalizeSubscribers([first] + rest, now) == Kept(first, now) + NormalizeSubscribers(rest, now)
  {
    assert ([first] + rest)[1..] == rest;
  }

  lemma OneSubscriberMore(first: Json, rest: seq<Json>, b: seq<Json>, now: int)
    requires NormalizeSubscribers(rest + b, now) == NormalizeSubscribers(rest, now) + NormalizeSubscribers(b, now)
    ensures NormalizeSubscribers([first] + (rest + b), now) ==
            NormalizeSubscribers([first] + rest, now) + NormalizeSubscribers(b, now)
  {
    SubscribersCons(first, rest, now);
    SubscribersCons(first, rest + b, now);
    Regrouped(Kept(first, now), NormalizeSubscribers(rest, now), NormalizeSubscribers(b, now));
  }

  lemma Regrouped(a: seq<Subscription>, b: seq<Subscription>, c: seq<Subscription>)
    ensures a + b + c == a + (b + c)
  {
  }

  /** Subscriber entries are read one by one, in order. */
  lemma {:induction false} SubscribersConcat(a: seq<Json>, b: seq<Json>, now: int)
    ensures NormalizeSubscribers(a + b, now) == NormalizeSubscribers(a, now) + NormalizeSubscribers(b, now)
  {
    if a == [] {
      assert a + b == b;
      EmptyFront(NormalizeSubscribers(b, now));
    } else {
      SubscribersConcat(a[1..], b, now);
      OneSubscriberMore(a[0], a[1..], b, now);
      FirstItem(a, b);
    }
  }

  lemma EmptyFront(c: seq<Subscription>)
    ensures [] + c == c
  {
  }

  lemma FirstItem(a: seq<Json>, b: seq<Json>)
    requires a != []
    ensures a == [a[0]] + a[1..] && a + b == [a[0]] + (a[1..] + b)
  {
  }

  lemma OneSubscriber(item: Json, now: int)
    ensures NormalizeSubscribers([], now) == []
    ensures NormalizeSubscribers([item], now) == Kept(item, now)
  {
    assert [item][1..] == [];
  }

  /** A stamp is kept if its id is not blank and it is a positive number, and it is cut to an integer. */
  lemma StampMeaning(raw: Json, now: int, id: string)
    ensures var entries := Entries(Field(raw, "notifiedRequestIds"));
            var notified := Normalize(raw, now).notified;
            && (id in notified <==>
                id in entries && !IsBlank(id) && entries[id].JsonNumber? && entries[id].value > 0.0)
            && (id in notified ==> notified[id] as real <= entries[id].value < notified[id] as real + 1.0)
  {
    BlankIsTrimmedAway(id);
    var entries := Entries(Field(raw, "notifiedRequestIds"));
    if id in entries && entries[id].JsonNumber? {
      TruncTowardsZero(entries[id].value);
    }
  }

  /** Anything else than a list of subscribers or an object of stamps is read as empty. */
  lemma OtherFilesAreEmpty(raw: Json, now: int)
    ensures !Field(raw, "subscribers").JsonArray? ==> Normalize(raw, now).subscribers == []
    ensures Field(raw, "subscribers").JsonArray? ==>
              Normalize(raw, now).subscribers == NormalizeSubscribers(Field(raw, "subscribers").items, now)
    ensures Field(raw, "notifiedRequestIds") == JsonNull ==> Normalize(raw, now).notified == map[]
  {
  }

  /** The entries of an array are named by its indexes. */
  lemma ArrayEntry(items: seq<Json>, i: nat)
    requires i < |items|
    ensures Numeral(i) in Entries(JsonArray(items)) && Entries(JsonArray(items))[Numeral(i)] == items[i]
  {
    ParseNumeral(i);
    assert Numeral(i) in (set j | 0 <= j < |items| :: Numeral(j));
  }

  lemma NoOtherArrayEntry(items: seq<Json>, k: string)
    requires k in Entries(JsonArray(items))
    ensures exists i: nat :: i < |items| && Numeral(i) == k
  {
  }
}
