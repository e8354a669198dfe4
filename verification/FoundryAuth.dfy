/** The Entra token cache of extensions/microsoft-foundry/runtime.ts, one atomic step per synchronous segment. */
module FoundryAuth {
  import opened Base

  const TOKEN_REFRESH_MARGIN_MS := 5 * 60 * 1000
  const DEFAULT_LIFETIME_MS := 55 * 60 * 1000

  datatype Params = Params(subscriptionId: Option<string>, tenantId: Option<string>)

  function OrEmpty(s: Option<string>): string {
    if s.Some? then s.value else ""
  }

  /** `getFoundryTokenCacheKey`. */
  function CacheKey(p: Params): string {
    OrEmpty(p.subscriptionId) + ":" + OrEmpty(p.tenantId)
  }

  /** The account a call asks for; an absent id and an empty one ask for the same. */
  predicate SameAccount(p: Params, q: Params) {
    OrEmpty(p.subscriptionId) == OrEmpty(q.subscriptionId) && OrEmpty(p.tenantId) == OrEmpty(q.tenantId)
  }

  predicate ColonFree(p: Params) {
    ':' !in OrEmpty(p.subscriptionId)
  }

  /** The account selection passed to `az account get-access-token`. */
  function AccountArgs(p: Params): seq<string> {
    if OrEmpty(p.subscriptionId) != "" then ["--subscription", OrEmpty(p.subscriptionId)]
    else if OrEmpty(p.tenantId) != "" then ["--tenant", OrEmpty(p.tenantId)]
    else []
  }

  // ---------------------------------------------------------------- keys and accounts

  lemma JoinedAtColon(s: string, t: string, s': string, t': string)
    requires s + ":" + t == s' + ":" + t' && |s| < |s'|
    ensures ':' in s'
  {
    assert s'[|s|] == (s' + ":" + t')[|s|] == (s + ":" + t)[|s|] == ':';
  }

  /** Keys separate accounts as long as the subscription ids hold no colon. */
  lemma KeySeparatesAccounts(p: Params, q: Params)
    requires ColonFree(p) && ColonFree(q)
    ensures CacheKey(p) == CacheKey(q) <==> SameAccount(p, q)
    ensures CacheKey(p) == CacheKey(q) ==> AccountArgs(p) == AccountArgs(q)
  {
    var s, t, s', t' := OrEmpty(p.subscriptionId), OrEmpty(p.tenantId), OrEmpty(q.subscriptionId), OrEmpty(q.tenantId);
    if CacheKey(p) == CacheKey(q) {
      if |s| < |s'| {
        JoinedAtColon(s, t, s', t');
      } else if |s'| < |s| {
        JoinedAtColon(s', t', s, t);
      } else {
        assert s == CacheKey(p)[..|s|] == CacheKey(q)[..|s|] == s';
        assert t == CacheKey(p)[|s| + 1..] == CacheKey(q)[|s| + 1..] == t';
      }
    }
  }

  /** An account whose key no other account can share: exactly one colon-free in both of its ids. */
  lemma KeyIsUnshared(p: Params)
    ensures (forall q: Params :: CacheKey(q) == CacheKey(p) ==> SameAccount(p, q)) <==>
            ':' !in OrEmpty(p.subscriptionId) && ':' !in OrEmpty(p.tenantId)
  {
    var s, t := OrEmpty(p.subscriptionId), OrEmpty(p.tenantId);
    if ':' in s {
      var i :| 0 <= i < |s| && s[i] == ':';
      var q := Params(Some(s[..i]), Some(s[i + 1..] + ":" + t));
      assert s == s[..i] + ":" + s[i + 1..];
      assert CacheKey(q) == CacheKey(p) && !SameAccount(p, q);
    } else if ':' in t {
      var i :| 0 <= i < |t| && t[i] == ':';
      var q := Params(Some(s + ":" + t[..i]), Some(t[i + 1..]));
      assert t == t[..i] + ":" + t[i + 1..];
      assert CacheKey(q) == CacheKey(p) && !SameAccount(p, q);
    } else {
      forall q: Params | CacheKey(q) == CacheKey(p) ensures SameAccount(p, q) {
        OnlyColon(s, t, OrEmpty(q.subscriptionId), OrEmpty(q.tenantId));
      }
    }
  }

  lemma OnlyColon(s: string, t: string, s': string, t': string)
    requires s + ":" + t == s' + ":" + t' && ':' !in s && ':' !in t
    ensures s == s' && t == t'
  {
    var joined := s + ":" + t;
    assert joined[|s'|] == ':';
    assert |s'| == |s|;
    assert s == joined[..|s|] && s' == joined[..|s|] && t == joined[|s| + 1..] && t' == joined[|s| + 1..];
  }

  // ---------------------------------------------------------------- the protocol

  /** An access token, with the parameters it was minted for. */
  datatype Token = Token(mintedFor: Params, serial: nat)

  datatype Entry = Entry(token: Token, expiresAt: int)

  datatype Outcome = Pending | Minted(entry: Entry) | Failed

  /** A refresh: its promise is dropped from the map (`finally`) some time after `az` has answered. */
  datatype Refresh = Refresh(params: Params, outcome: Outcome, cleaned: bool)

  datatype Caller =
    | Waiting(params: Params, refresh: nat)
    | FromCache(params: Params, calledAt: int, entry: Entry)
    | FromRefresh(params: Params, refresh: nat, entry: Entry)
    | Rejected(params: Params, refresh: nat)

  datatype Auth = Auth(cachedTokens: map<string, Entry>, refreshPromises: map<string, nat>,
                       refreshes: seq<Refresh>, callers: seq<Caller>)

  const INITIAL := Auth(map[], map[], [], [])

  /** What `az` answers: a token with an expiry time, if it names a valid one. */
  datatype Answer = Answer(serial: nat, expiresOn: Option<int>)

  datatype Event =
    | Call(params: Params, now: int)
    | AzAnswers(refresh: nat, answer: Answer, now: int)
    | AzFails(refresh: nat)
    | CleanUp(refresh: nat)
    | Resume(caller: nat)
    | Reset

  predicate HasFreshEntry(a: Auth, key: string, now: int) {
    key in a.cachedTokens && a.cachedTokens[key].expiresAt > now + TOKEN_REFRESH_MARGIN_MS
  }

  predicate Unanswered(a: Auth, r: nat) {
    r < |a.refreshes| && a.refreshes[r].outcome == Pending
  }

  function MintedEntry(params: Params, answer: Answer, now: int): Entry {
    Entry(Token(params, answer.serial),
          if answer.expiresOn.Some? then answer.expiresOn.value else now + DEFAULT_LIFETIME_MS)
  }

  /** What awaiting a refresh ends in. */
  function Settled(params: Params, refresh: nat, outcome: Outcome): Caller {
    match outcome
    case Pending => Waiting(params, refresh)
    case Minted(entry) => FromRefresh(params, refresh, entry)
    case Failed => Rejected(params, refresh)
  }

  /** One synchronous segment; an event that is not possible in the state changes nothing. */
  function Step(a: Auth, e: Event): Auth {
    match e
    case Call(params, now) =>
      var key := CacheKey(params);
      if HasFreshEntry(a, key, now) then
        a.(callers := a.callers + [FromCache(params, now, a.cachedTokens[key])])
      else if key in a.refreshPromises then
        a.(callers := a.callers + [Waiting(params, a.refreshPromises[key])])
      else
        Auth(a.cachedTokens, a.refreshPromises[key := |a.refreshes|],
             a.refreshes + [Refresh(params, Pending, false)], a.callers + [Waiting(params, |a.refreshes|)])
    case AzAnswers(r, answer, now) =>
      if !Unanswered(a, r) then a
      else
        var entry := MintedEntry(a.refreshes[r].params, answer, now);
        a.(cachedTokens := a.cachedTokens[CacheKey(a.refreshes[r].params) := entry],
           refreshes := a.refreshes[r := a.refreshes[r].(outcome := Minted(entry))])
    case AzFails(r) =>
      if !Unanswered(a, r) then a
      else a.(refreshes := a.refreshes[r := a.refreshes[r].(outcome := Failed)])
    case CleanUp(r) =>
      if r >= |a.refreshes| || a.refreshes[r].outcome == Pending || a.refreshes[r].cleaned then a
      else a.(refreshPromises := a.refreshPromises - {CacheKey(a.refreshes[r].params)},
              refreshes := a.refreshes[r := a.refreshes[r].(cleaned := true)])
    case Resume(c) =>
      if c >= |a.callers| || !a.callers[c].Waiting? then a
      else
        var caller := a.callers[c];
        if caller.refresh >= |a.refreshes| || !a.refreshes[caller.refresh].cleaned then a
        else a.(callers := a.callers[c := Settled(caller.params, caller.refresh, a.refreshes[caller.refresh].outcome)])
    case Reset => a.(cachedTokens := map[], refreshPromises := map[])
  }

  function Run(a: Auth, events: seq<Event>): Auth {
    if events == [] then a else Step(Run(a, events[..|events| - 1]), events[|events| - 1])
  }

  // ---------------------------------------------------------------- the invariant

  predicate InFlight(a: Auth, r: nat) {
    r < |a.refreshes| && !a.refreshes[r].cleaned
  }

  /** The promise map holds exactly the refreshes that are in flight. */
  ghost predicate PromisesMatch(a: Auth) {
    && (forall r: nat | InFlight(a, r) ::
          var key := CacheKey(a.refreshes[r].params);
          key in a.refreshPromises && a.refreshPromises[key] == r)
    && (forall key | key in a.refreshPromises ::
          var r := a.refreshPromises[key];
          InFlight(a, r) && CacheKey(a.refreshes[r].params) == key)
  }

  predicate RefreshOk(refresh: Refresh) {
    && (refresh.cleaned ==> refresh.outcome != Pending)
    && (refresh.outcome.Minted? ==> refresh.outcome.entry.token.mintedFor == refresh.params)
  }

  predicate CallerOk(a: Auth, caller: Caller) {
    match caller
    case Waiting(params, r) => r < |a.refreshes| && CacheKey(a.refreshes[r].params) == CacheKey(params)
    case FromCache(params, calledAt, entry) =>
      CacheKey(entry.token.mintedFor) == CacheKey(params) && entry.expiresAt > calledAt + TOKEN_REFRESH_MARGIN_MS
    case FromRefresh(params, r, entry) =>
      && r < |a.refreshes| && a.refreshes[r].outcome == Minted(entry)
      && CacheKey(a.refreshes[r].params) == CacheKey(params)
    case Rejected(params, r) =>
      r < |a.refreshes| && a.refreshes[r].outcome == Failed && CacheKey(a.refreshes[r].params) == CacheKey(params)
  }

  ghost predicate Invariant(a: Auth) {
    && PromisesMatch(a)
    && (forall key | key in a.cachedTokens :: CacheKey(a.cachedTokens[key].token.mintedFor) == key)
    && (forall r | 0 <= r < |a.refreshes| :: RefreshOk(a.refreshes[r]))
    && (forall c | 0 <= c < |a.callers| :: CallerOk(a, a.callers[c]))
  }

  lemma StartKeepsPromises(a: Auth, params: Params)
    requires PromisesMatch(a) && CacheKey(params) !in a.refreshPromises
    ensures PromisesMatch(a.(refreshPromises := a.refreshPromises[CacheKey(params) := |a.refreshes|],
                             refreshes := a.refreshes + [Refresh(params, Pending, false)]))
  {
  }

  /** A new caller joins a list of callers that are all in order. */
  lemma CallerJoins(a: Auth, b: Auth, caller: Caller)
    requires b.callers == a.callers + [caller] && a.refreshes <= b.refreshes && CallerOk(b, caller)
    requires forall c | 0 <= c < |a.callers| :: CallerOk(a, a.callers[c])
    ensures forall c | 0 <= c < |b.callers| :: CallerOk(b, b.callers[c])
  {
  }

  lemma CallKeepsInvariant(a: Auth, params: Params, now: int)
    requires Invariant(a)
    ensures Invariant(Step(a, Call(params, now)))
  {
    var b := Step(a, Call(params, now));
    var key := CacheKey(params);
    if HasFreshEntry(a, key, now) {
      CallerJoins(a, b, FromCache(params, now, a.cachedTokens[key]));
      assert b.refreshes == a.refreshes && b.refreshPromises == a.refreshPromises;
    } else if key in a.refreshPromises {
      CallerJoins(a, b, Waiting(params, a.refreshPromises[key]));
      assert b.refreshes == a.refreshes && b.refreshPromises == a.refreshPromises;
    } else {
      StartKeepsPromises(a, params);
      CallerJoins(a, b, Waiting(params, |a.refreshes|));
    }
  }

  /** Same refreshes in flight for the same keys, in either direction. */
  ghost predicate SameFlights(a: Auth, b: Auth) {
    && |a.refreshes| == |b.refreshes| && a.refreshPromises == b.refreshPromises
    && forall r | 0 <= r < |a.refreshes| ::
         a.refreshes[r].params == b.refreshes[r].params && a.refreshes[r].cleaned == b.refreshes[r].cleaned
  }

  lemma SameFlightsMatch(a: Auth, b: Auth)
    requires PromisesMatch(a) && SameFlights(a, b)
    ensures PromisesMatch(b)
  {
  }

  lemma CallersUntouched(a: Auth, b: Auth)
    requires a.callers == b.callers && |a.refreshes| == |b.refreshes|
    requires forall r | 0 <= r < |a.refreshes| ::
               a.refreshes[r].params == b.refreshes[r].params
               && (a.refreshes[r].outcome == b.refreshes[r].outcome || a.refreshes[r].outcome == Pending)
    requires forall c | 0 <= c < |a.callers| :: CallerOk(a, a.callers[c])
    ensures forall c | 0 <= c < |b.callers| :: CallerOk(b, b.callers[c])
  {
  }

  lemma AnswerKeepsInvariant(a: Auth, e: Event)
    requires Invariant(a) && (e.AzAnswers? || e.AzFails?)
    ensures Invariant(Step(a, e))
  {
    var b := Step(a, e);
    assert SameFlights(a, b);
    SameFlightsMatch(a, b);
    CallersUntouched(a, b);
    AnswerStoresOwnToken(a, e);
  }

  lemma AnswerStoresOwnToken(a: Auth, e: Event)
    requires e.AzAnswers? || e.AzFails?
    requires forall key | key in a.cachedTokens :: CacheKey(a.cachedTokens[key].token.mintedFor) == key
    requires forall r | 0 <= r < |a.refreshes| :: RefreshOk(a.refreshes[r])
    ensures var b := Step(a, e);
            && (forall key | key in b.cachedTokens :: CacheKey(b.cachedTokens[key].token.mintedFor) == key)
            && (forall r | 0 <= r < |b.refreshes| :: RefreshOk(b.refreshes[r]))
  {
  }

  lemma CleanUpPromises(a: Auth, r: nat)
    requires PromisesMatch(a) && InFlight(a, r) && a.refreshes[r].outcome != Pending
    ensures PromisesMatch(Step(a, CleanUp(r)))
  {
    var b := Step(a, CleanUp(r));
    assert forall q: nat :: InFlight(b, q) <==> InFlight(a, q) && q != r;
  }

  lemma CleanUpKeepsInvariant(a: Auth, r: nat)
    requires Invariant(a)
    ensures Invariant(Step(a, CleanUp(r)))
  {
    if InFlight(a, r) && a.refreshes[r].outcome != Pending {
      CleanUpPromises(a, r);
      CallersUntouched(a, Step(a, CleanUp(r)));
    }
  }

  lemma ResumeKeepsInvariant(a: Auth, c: nat)
    requires Invariant(a)
    ensures Invariant(Step(a, Resume(c)))
  {
  }

  lemma {:induction false} RunKeepsInvariant(a: Auth, events: seq<Event>)
    requires Invariant(a) && Reset !in events
    ensures Invariant(Run(a, events))
  {
    if events != [] {
      var init, last := events[..|events| - 1], events[|events| - 1];
      assert last in events;
      RunKeepsInvariant(a, init);
      match last
      case Call(params, now) => CallKeepsInvariant(Run(a, init), params, now);
      case AzAnswers(_, _, _) => AnswerKeepsInvariant(Run(a, init), last);
      case AzFails(_) => AnswerKeepsInvariant(Run(a, init), last);
      case CleanUp(r) => CleanUpKeepsInvariant(Run(a, init), r);
      case Resume(c) => ResumeKeepsInvariant(Run(a, init), c);
      case Reset =>
    }
  }

  // ---------------------------------------------------------------- what every run guarantees

  /** Single flight: two refreshes in flight for one key are the same refresh. */
  lemma AtMostOneRefreshPerKey(events: seq<Event>, r: nat, q: nat)
    requires Reset !in events
    requires var a := Run(INITIAL, events);
             InFlight(a, r) && InFlight(a, q) && CacheKey(a.refreshes[r].params) == CacheKey(a.refreshes[q].params)
    ensures r == q
  {
    RunKeepsInvariant(INITIAL, events);
  }

  ghost predicate ColonFreeCalls(events: seq<Event>) {
    forall e | e in events && e.Call? :: ColonFree(e.params)
  }

  predicate ColonFreeCaller(caller: Caller) {
    ColonFree(caller.params) && (caller.FromCache? ==> ColonFree(caller.entry.token.mintedFor))
  }

  ghost predicate ColonFreeState(a: Auth) {
    && (forall r | 0 <= r < |a.refreshes| :: ColonFree(a.refreshes[r].params))
    && (forall c | 0 <= c < |a.callers| :: ColonFreeCaller(a.callers[c]))
    && (forall key | key in a.cachedTokens :: ColonFree(a.cachedTokens[key].token.mintedFor))
  }

  lemma CallColonFree(a: Auth, params: Params, now: int)
    requires ColonFreeState(a) && ColonFree(params)
    ensures ColonFreeState(Step(a, Call(params, now)))
  {
    var b := Step(a, Call(params, now));
    assert ColonFreeCaller(b.callers[|a.callers|]);
  }

  lemma StepColonFree(a: Auth, e: Event)
    requires ColonFreeState(a) && (e.Call? ==> ColonFree(e.params))
    ensures ColonFreeState(Step(a, e))
  {
    if e.Call? {
      CallColonFree(a, e.params, e.now);
    } else {
      var b := Step(a, e);
      assert forall r | 0 <= r < |b.refreshes| :: b.refreshes[r].params == a.refreshes[r].params;
      assert forall c | 0 <= c < |b.callers| ::
        b.callers[c] == a.callers[c] || b.callers[c].params == a.callers[c].params;
    }
  }

  lemma {:induction false} RunColonFree(events: seq<Event>)
    requires ColonFreeCalls(events)
    ensures ColonFreeState(Run(INITIAL, events))
  {
    if events != [] {
      assert events[|events| - 1] in events;
      RunColonFree(events[..|events| - 1]);
      StepColonFree(Run(INITIAL, events[..|events| - 1]), events[|events| - 1]);
    }
  }

  /** Served callers hold a token of their own account, fresh from the cache or made by the refresh they joined. */
  predicate ServedProperly(a: Auth, caller: Caller) {
    match caller
    case FromCache(params, calledAt, entry) =>
      SameAccount(entry.token.mintedFor, params) && entry.expiresAt > calledAt + TOKEN_REFRESH_MARGIN_MS
    case FromRefresh(params, r, entry) =>
      SameAccount(entry.token.mintedFor, params) && r < |a.refreshes| && a.refreshes[r].outcome == Minted(entry)
    case Rejected(params, r) => r < |a.refreshes| && a.refreshes[r].outcome == Failed
    case Waiting(params, r) => r < |a.refreshes| && SameAccount(a.refreshes[r].params, params)
  }

  lemma CallersGetTheirOwnToken(events: seq<Event>, c: nat)
    requires Reset !in events && ColonFreeCalls(events) && c < |Run(INITIAL, events).callers|
    ensures ServedProperly(Run(INITIAL, events), Run(INITIAL, events).callers[c])
  {
    var a := Run(INITIAL, events);
    RunKeepsInvariant(INITIAL, events);
    RunColonFree(events);
    var caller := a.callers[c];
    assert CallerOk(a, caller) && ColonFreeCaller(caller);
    match caller
    case FromCache(params, _, entry) => KeySeparatesAccounts(entry.token.mintedFor, params);
    case FromRefresh(params, r, entry) =>
      assert RefreshOk(a.refreshes[r]);
      KeySeparatesAccounts(a.refreshes[r].params, params);
    case Rejected(_, _) =>
    case Waiting(params, r) => KeySeparatesAccounts(a.refreshes[r].params, params);
  }

  /** One account is served the token of another whenever they share a key. */
  lemma SharedKeyMixesAccounts(mine: Params, other: Params, serial: nat)
    requires CacheKey(mine) == CacheKey(other)
    ensures var events := [Call(other, 0), AzAnswers(0, Answer(serial, None), 0), Call(mine, 0)];
            && |Run(INITIAL, events).callers| == 2
            && Run(INITIAL, events).callers[1] == FromCache(mine, 0, Entry(Token(other, serial), DEFAULT_LIFETIME_MS))
  {
    var first, second, third := Call(other, 0), AzAnswers(0, Answer(serial, None), 0), Call(mine, 0);
    RunThree(INITIAL, first, second, third);
    var a := Step(INITIAL, first);
    assert a.refreshes[0] == Refresh(other, Pending, false);
    var b := Step(a, second);
    assert b.cachedTokens[CacheKey(mine)] == Entry(Token(other, serial), DEFAULT_LIFETIME_MS);
  }

  /** With a colon in a subscription id, two accounts share a key, and the second is served the token of the first. */
  lemma ColonMixesAccounts(serial: nat)
    ensures var mine, other := Params(Some("a:b"), Some("c")), Params(Some("a"), Some("b:c"));
            var events := [Call(other, 0), AzAnswers(0, Answer(serial, None), 0), Call(mine, 0)];
            && |Run(INITIAL, events).callers| == 2
            && Run(INITIAL, events).callers[1] == FromCache(mine, 0, Entry(Token(other, serial), DEFAULT_LIFETIME_MS))
            && !SameAccount(other, mine)
  {
    assert "a:b" + ":" + "c" == "a" + ":" + "b:c";
    SharedKeyMixesAccounts(Params(Some("a:b"), Some("c")), Params(Some("a"), Some("b:c")), serial);
    assert |"a:b"| != |"a"|;
  }

  /** In every run without a reset, whoever else calls, every caller of this account is served properly. */
  ghost predicate AlwaysServed(p: Params) {
    forall events: seq<Event>, c: nat ::
      Reset !in events && c < |Run(INITIAL, events).callers| && Run(INITIAL, events).callers[c].params == p ==>
      ServedProperly(Run(INITIAL, events), Run(INITIAL, events).callers[c])
  }

  lemma UnsharedIsServed(p: Params, a: Auth, caller: Caller)
    requires forall q: Params :: CacheKey(q) == CacheKey(p) ==> SameAccount(p, q)
    requires Invariant(a) && CallerOk(a, caller) && caller.params == p
    ensures ServedProperly(a, caller)
  {
    match caller
    case FromCache(_, _, entry) => assert SameAccount(p, entry.token.mintedFor);
    case FromRefresh(_, r, entry) =>
      assert RefreshOk(a.refreshes[r]);
      assert SameAccount(p, a.refreshes[r].params);
    case Rejected(_, _) =>
    case Waiting(_, r) => assert SameAccount(p, a.refreshes[r].params);
  }

  lemma SharedIsMisserved(p: Params, q: Params)
    requires CacheKey(p) == CacheKey(q) && !SameAccount(p, q)
    ensures !AlwaysServed(p)
  {
    var events := [Call(q, 0), AzAnswers(0, Answer(0, None), 0), Call(p, 0)];
    SharedKeyMixesAccounts(p, q, 0);
    var a := Run(INITIAL, events);
    assert Reset !in events && a.callers[1].params == p;
    assert !ServedProperly(a, a.callers[1]);
  }

  /** An account is always served its own token exactly when neither of its ids holds a colon. */
  lemma OwnTokenExactly(p: Params)
    ensures AlwaysServed(p) <==> ':' !in OrEmpty(p.subscriptionId) && ':' !in OrEmpty(p.tenantId)
  {
    KeyIsUnshared(p);
    if q: Params :| CacheKey(q) == CacheKey(p) && !SameAccount(p, q) {
      SharedIsMisserved(p, q);
    } else {
      forall events: seq<Event>, c: nat
        | Reset !in events && c < |Run(INITIAL, events).callers| && Run(INITIAL, events).callers[c].params == p
        ensures ServedProperly(Run(INITIAL, events), Run(INITIAL, events).callers[c])
      {
        RunKeepsInvariant(INITIAL, events);
        UnsharedIsServed(p, Run(INITIAL, events), Run(INITIAL, events).callers[c]);
      }
    }
  }

  lemma RunSnoc(a: Auth, events: seq<Event>, e: Event)
    ensures Run(a, events + [e]) == Step(Run(a, events), e)
  {
    assert (events + [e])[..|events|] == events;
  }

  lemma RunTwo(a: Auth, first: Event, second: Event)
    ensures Run(a, [first, second]) == Step(Step(a, first), second)
  {
    RunSnoc(a, [], first);
    RunSnoc(a, [first], second);
    assert [] + [first] == [first] && [first] + [second] == [first, second];
  }

  lemma RunThree(a: Auth, first: Event, second: Event, third: Event)
    ensures Run(a, [first, second, third]) == Step(Step(Step(a, first), second), third)
  {
    RunTwo(a, first, second);
    RunSnoc(a, [first, second], third);
    assert [first, second] + [third] == [first, second, third];
  }

  // ---------------------------------------------------------------- settled refreshes, over runs

  /** What can become of a refresh: its account and its outcome are final, and so is its clean-up. */
  predicate GoesOnAs(x: Refresh, y: Refresh) {
    y.params == x.params && (x.outcome != Pending ==> y.outcome == x.outcome) && (x.cleaned ==> y.cleaned)
  }

  ghost predicate RefreshesGoOn(a: Auth, b: Auth) {
    |a.refreshes| <= |b.refreshes| && forall r | 0 <= r < |a.refreshes| :: GoesOnAs(a.refreshes[r], b.refreshes[r])
  }

  lemma StepGoesOn(a: Auth, e: Event)
    ensures RefreshesGoOn(a, Step(a, e))
  {
  }

  lemma {:induction false} RunGoesOn(a: Auth, events: seq<Event>)
    ensures RefreshesGoOn(a, Run(a, events))
  {
    if events != [] {
      var before := Run(a, events[..|events| - 1]);
      RunGoesOn(a, events[..|events| - 1]);
      StepGoesOn(before, events[|events| - 1]);
      assert forall r | 0 <= r < |a.refreshes| :: GoesOnAs(a.refreshes[r], before.refreshes[r]);
    }
  }

  /** The caller joined refresh `r`, whether it still waits for it or has been answered. */
  predicate Joined(caller: Caller, r: nat) {
    !caller.FromCache? && caller.refresh == r
  }

  lemma StepKeepsCallers(a: Auth, e: Event, c: nat)
    requires c < |a.callers|
    ensures c < |Step(a, e).callers|
    ensures !a.callers[c].Waiting? ==> Step(a, e).callers[c] == a.callers[c]
    ensures forall r: nat :: Joined(Step(a, e).callers[c], r) <==> Joined(a.callers[c], r)
  {
  }

  /** A new caller joins no refresh that has been cleaned up. */
  lemma NewCallerJoinsFlight(a: Auth, e: Event, r: nat)
    requires Invariant(a) && r < |a.refreshes| && a.refreshes[r].cleaned
    ensures |Step(a, e).callers| <= |a.callers| + 1
    ensures |Step(a, e).callers| > |a.callers| ==> !Joined(Step(a, e).callers[|a.callers|], r)
  {
    if e.Call? && CacheKey(e.params) in a.refreshPromises {
      assert InFlight(a, a.refreshPromises[CacheKey(e.params)]);
    }
  }

  /** No caller from number `n` on has joined refresh `r`. */
  ghost predicate NoneJoined(a: Auth, n: nat, r: nat) {
    forall c | n <= c < |a.callers| :: !Joined(a.callers[c], r)
  }

  lemma StepJoinsNone(a: Auth, e: Event, n: nat, r: nat)
    requires Invariant(a) && r < |a.refreshes| && a.refreshes[r].cleaned
    requires n <= |a.callers| && NoneJoined(a, n, r)
    ensures n <= |Step(a, e).callers| && NoneJoined(Step(a, e), n, r)
  {
    NewCallerJoinsFlight(a, e, r);
    forall c | n <= c < |Step(a, e).callers| ensures !Joined(Step(a, e).callers[c], r) {
      if c < |a.callers| {
        StepKeepsCallers(a, e, c);
      }
    }
    if n < |a.callers| {
      StepKeepsCallers(a, e, |a.callers| - 1);
    }
  }

  /** Once a refresh has been cleaned up, no caller that comes later ever has to do with it. */
  lemma {:induction false} NoLateWaiters(a: Auth, events: seq<Event>, r: nat)
    requires Invariant(a) && Reset !in events && r < |a.refreshes| && a.refreshes[r].cleaned
    ensures |a.callers| <= |Run(a, events).callers| && NoneJoined(Run(a, events), |a.callers|, r)
  {
    if events != [] {
      var init := events[..|events| - 1];
      NoLateWaiters(a, init, r);
      RunKeepsInvariant(a, init);
      RunGoesOn(a, init);
      assert GoesOnAs(a.refreshes[r], Run(a, init).refreshes[r]);
      StepJoinsNone(Run(a, init), events[|events| - 1], |a.callers|, r);
    }
  }

  // ---------------------------------------------------------------- failed refreshes, over runs

  predicate MintedBy(a: Auth, r: nat, key: string) {
    && r < |a.refreshes| && CacheKey(a.refreshes[r].params) == key && key in a.cachedTokens
    && a.refreshes[r].outcome == Minted(a.cachedTokens[key])
  }

  /** Every cached token is the outcome of a refresh for its key. */
  ghost predicate CacheIsMinted(a: Auth) {
    forall key | key in a.cachedTokens :: exists r: nat :: MintedBy(a, r, key)
  }

  predicate Answers(a: Auth, e: Event, key: string) {
    e.AzAnswers? && Unanswered(a, e.refresh) && key == CacheKey(a.refreshes[e.refresh].params)
  }

  /** Only the answer to a refresh for its key changes a cache entry. */
  lemma EntryStays(a: Auth, e: Event, key: string)
    requires key in Step(a, e).cachedTokens && !Answers(a, e, key)
    ensures key in a.cachedTokens && Step(a, e).cachedTokens[key] == a.cachedTokens[key]
  {
  }

  lemma StepCachesMinted(a: Auth, e: Event)
    requires CacheIsMinted(a)
    ensures CacheIsMinted(Step(a, e))
  {
    var b := Step(a, e);
    StepGoesOn(a, e);
    forall key | key in b.cachedTokens ensures exists r: nat :: MintedBy(b, r, key) {
      if Answers(a, e, key) {
        assert MintedBy(b, e.refresh, key);
      } else {
        EntryStays(a, e, key);
        var r: nat :| MintedBy(a, r, key);
        assert GoesOnAs(a.refreshes[r], b.refreshes[r]);
        assert MintedBy(b, r, key);
      }
    }
  }

  lemma {:induction false} RunCachesMinted(a: Auth, events: seq<Event>)
    requires CacheIsMinted(a)
    ensures CacheIsMinted(Run(a, events))
  {
    if events != [] {
      RunCachesMinted(a, events[..|events| - 1]);
      StepCachesMinted(Run(a, events[..|events| - 1]), events[|events| - 1]);
    }
  }

  /** A failed refresh stays failed in every run, and no cached token ever comes from it. */
  lemma FailedNeverCaches(a: Auth, events: seq<Event>, r: nat, key: string)
    requires CacheIsMinted(a) && r < |a.refreshes| && a.refreshes[r].outcome == Failed
    requires key in Run(a, events).cachedTokens
    ensures |a.refreshes| <= |Run(a, events).refreshes| && Run(a, events).refreshes[r].outcome == Failed
    ensures exists q: nat :: q != r && MintedBy(Run(a, events), q, key)
  {
    RunGoesOn(a, events);
    RunCachesMinted(a, events);
    assert GoesOnAs(a.refreshes[r], Run(a, events).refreshes[r]);
    var q: nat :| MintedBy(Run(a, events), q, key);
  }

  /** The refresh that a caller without a fresh entry joins: the one in flight for its key, or a new one. */
  function JoinedRefresh(a: Auth, key: string): nat {
    if key in a.refreshPromises then a.refreshPromises[key] else |a.refreshes|
  }

  lemma CallJoins(a: Auth, params: Params, now: int)
    requires Invariant(a) && !HasFreshEntry(a, CacheKey(params), now)
    ensures var q, b := JoinedRefresh(a, CacheKey(params)), Step(a, Call(params, now));
            && b.callers == a.callers + [Waiting(params, q)] && b.cachedTokens == a.cachedTokens
            && InFlight(b, q) && CacheKey(b.refreshes[q].params) == CacheKey(params)
            && (q < |a.refreshes| ==> InFlight(a, q))
            && (q == |a.refreshes| ==> Unanswered(b, q))
  {
    if CacheKey(params) in a.refreshPromises {
      assert InFlight(a, a.refreshPromises[CacheKey(params)]);
    }
  }

  /**
   * Whatever happens after a refresh failed and was cleaned up: a caller for its key that finds no
   * fresh token waits for another refresh in flight, and for one started since if none was in flight.
   */
  lemma FailedRefreshIsRetried(a: Auth, r: nat, events: seq<Event>, params: Params, now: int)
    requires Invariant(a) && r < |a.refreshes| && a.refreshes[r].outcome == Failed && a.refreshes[r].cleaned
    requires CacheKey(params) == CacheKey(a.refreshes[r].params) && Reset !in events
    requires !HasFreshEntry(Run(a, events), CacheKey(params), now)
    ensures var b := Run(a, events);
            var q, d := JoinedRefresh(b, CacheKey(params)), Step(b, Call(params, now));
            && d.callers == b.callers + [Waiting(params, q)] && d.cachedTokens == b.cachedTokens
            && InFlight(d, q) && CacheKey(d.refreshes[q].params) == CacheKey(params) && q != r
            && (CacheKey(params) !in a.refreshPromises ==> q >= |a.refreshes|)
            && (CacheKey(params) !in b.refreshPromises ==> Unanswered(d, q) && |d.refreshes| == |b.refreshes| + 1)
  {
    var b := Run(a, events);
    var q := JoinedRefresh(b, CacheKey(params));
    RunKeepsInvariant(a, events);
    RunGoesOn(a, events);
    CallJoins(b, params, now);
    assert GoesOnAs(a.refreshes[r], b.refreshes[r]);
    if q < |a.refreshes| {
      assert GoesOnAs(a.refreshes[q], b.refreshes[q]);
      assert InFlight(a, q);
    }
  }

  // ---------------------------------------------------------------- answers of az, over runs

  /** The event is an answer to refresh `r` that makes this entry: 55 minutes hold where az names no expiry. */
  predicate Makes(e: Event, r: nat, entry: Entry) {
    && e.AzAnswers? && e.refresh == r && entry.token.serial == e.answer.serial
    && entry.expiresAt == match e.answer.expiresOn
                          case Some(expiresOn) => expiresOn
                          case None => e.now + 3_300_000
  }

  ghost predicate WasMade(events: seq<Event>, r: nat, entry: Entry) {
    exists k :: 0 <= k < |events| && Makes(events[k], r, entry)
  }

  lemma MadeLater(events: seq<Event>, e: Event, r: nat, entry: Entry)
    ensures WasMade(events, r, entry) || Makes(e, r, entry) ==> WasMade(events + [e], r, entry)
  {
    var all := events + [e];
    assert all[|events|] == e && forall k | 0 <= k < |events| :: all[k] == events[k];
    if WasMade(events, r, entry) {
      var k :| 0 <= k < |events| && Makes(events[k], r, entry);
      assert Makes(all[k], r, entry);
    }
  }

  /** Every outcome was made by an answer to its own refresh. */
  ghost predicate OutcomesMade(events: seq<Event>, a: Auth) {
    forall r: nat | r < |a.refreshes| && a.refreshes[r].outcome.Minted? ::
      WasMade(events, r, a.refreshes[r].outcome.entry)
  }

  lemma StepMakesOutcomes(events: seq<Event>, a: Auth, e: Event)
    requires OutcomesMade(events, a)
    ensures OutcomesMade(events + [e], Step(a, e))
  {
    var b := Step(a, e);
    forall r: nat | r < |b.refreshes| && b.refreshes[r].outcome.Minted?
      ensures WasMade(events + [e], r, b.refreshes[r].outcome.entry)
    {
      MadeLater(events, e, r, b.refreshes[r].outcome.entry);
      if r < |a.refreshes| && a.refreshes[r].outcome == b.refreshes[r].outcome {
        assert WasMade(events, r, a.refreshes[r].outcome.entry);
      } else {
        assert Makes(e, r, b.refreshes[r].outcome.entry);
      }
    }
  }

  lemma {:induction false} RunMakesOutcomes(events: seq<Event>)
    ensures OutcomesMade(events, Run(INITIAL, events))
  {
    if events != [] {
      var init, e := events[..|events| - 1], events[|events| - 1];
      RunMakesOutcomes(init);
      StepMakesOutcomes(init, Run(INITIAL, init), e);
      assert init + [e] == events;
    }
  }

  /** Every token served came out of some refresh. */
  predicate CameFrom(a: Auth, r: nat, entry: Entry) {
    r < |a.refreshes| && a.refreshes[r].outcome == Minted(entry)
  }

  predicate IsServed(caller: Caller) {
    caller.FromCache? || caller.FromRefresh?
  }

  ghost predicate ServedCameFrom(a: Auth) {
    forall c | 0 <= c < |a.callers| && IsServed(a.callers[c]) :: exists r: nat :: CameFrom(a, r, a.callers[c].entry)
  }

  lemma CameFromStays(a: Auth, e: Event, r: nat, entry: Entry)
    requires CameFrom(a, r, entry)
    ensures CameFrom(Step(a, e), r, entry)
  {
    StepGoesOn(a, e);
    assert GoesOnAs(a.refreshes[r], Step(a, e).refreshes[r]);
  }

  /** A caller served by this step got what the cache or a refresh held before it. */
  lemma ServedByStep(a: Auth, e: Event, c: nat)
    requires CacheIsMinted(a) && c < |Step(a, e).callers| && IsServed(Step(a, e).callers[c])
    requires c >= |a.callers| || a.callers[c] != Step(a, e).callers[c]
    ensures exists r: nat :: CameFrom(a, r, Step(a, e).callers[c].entry)
  {
    match e
    case Call(params, now) =>
      assert c == |a.callers|;
      var r: nat :| MintedBy(a, r, CacheKey(params));
      assert CameFrom(a, r, Step(a, e).callers[c].entry);
    case Resume(d) =>
      assert CameFrom(a, a.callers[d].refresh, Step(a, e).callers[c].entry);
    case _ =>
  }

  lemma StepServes(a: Auth, e: Event)
    requires CacheIsMinted(a) && ServedCameFrom(a)
    ensures ServedCameFrom(Step(a, e))
  {
    var b := Step(a, e);
    forall c | 0 <= c < |b.callers| && IsServed(b.callers[c])
      ensures exists r: nat :: CameFrom(b, r, b.callers[c].entry)
    {
      if c >= |a.callers| || a.callers[c] != b.callers[c] {
        ServedByStep(a, e, c);
      }
      var r: nat :| CameFrom(a, r, b.callers[c].entry);
      CameFromStays(a, e, r, b.callers[c].entry);
    }
  }

  lemma {:induction false} RunServes(events: seq<Event>)
    ensures ServedCameFrom(Run(INITIAL, events))
  {
    if events != [] {
      var init := events[..|events| - 1];
      RunServes(init);
      RunCachesMinted(INITIAL, init);
      StepServes(Run(INITIAL, init), events[|events| - 1]);
    }
  }

  /** In every run, whatever is cached was made by an answer of az, with the expiry az named or 55 minutes after it. */
  lemma CachedWasAnswered(events: seq<Event>, key: string)
    requires key in Run(INITIAL, events).cachedTokens
    ensures exists r: nat :: WasMade(events, r, Run(INITIAL, events).cachedTokens[key])
  {
    RunCachesMinted(INITIAL, events);
    RunMakesOutcomes(events);
    var r: nat :| MintedBy(Run(INITIAL, events), r, key);
    assert WasMade(events, r, Run(INITIAL, events).cachedTokens[key]);
  }

  /** And so was whatever a caller is served. */
  lemma ServedWasAnswered(events: seq<Event>, c: nat)
    requires c < |Run(INITIAL, events).callers| && IsServed(Run(INITIAL, events).callers[c])
    ensures exists r: nat :: WasMade(events, r, Run(INITIAL, events).callers[c].entry)
  {
    RunServes(events);
    RunMakesOutcomes(events);
    var r: nat :| CameFrom(Run(INITIAL, events), r, Run(INITIAL, events).callers[c].entry);
    assert WasMade(events, r, Run(INITIAL, events).callers[c].entry);
  }

  /**
   * A caller served from the cache at time t was given a token of which az named, in answer to some
   * refresh, an expiry more than 300000 milliseconds after t, or named none 55 minutes before such a time.
   */
  lemma CacheServesOnlyFresh(events: seq<Event>, c: nat) returns (k: nat, r: nat)
    requires Reset !in events
    requires c < |Run(INITIAL, events).callers| && Run(INITIAL, events).callers[c].FromCache?
    ensures k < |events| && Makes(events[k], r, Run(INITIAL, events).callers[c].entry)
    ensures var t, answer := Run(INITIAL, events).callers[c].calledAt, events[k].answer;
            if answer.expiresOn.Some? then answer.expiresOn.value > t + 300_000
            else events[k].now + 3_300_000 > t + 300_000
  {
    ServedWasAnswered(events, c);
    RunKeepsInvariant(INITIAL, events);
    var entry := Run(INITIAL, events).callers[c].entry;
    assert CallerOk(Run(INITIAL, events), Run(INITIAL, events).callers[c]);
    r :| WasMade(events, r, entry);
    k :| k < |events| && Makes(events[k], r, entry);
  }

  /** A caller is served from the cache exactly if that holds an entry with more than 300000 milliseconds left. */
  lemma CacheServesExactly(a: Auth, params: Params, now: int)
    ensures var key, b := CacheKey(params), Step(a, Call(params, now));
            && |b.callers| == |a.callers| + 1
            && (b.callers[|a.callers|].FromCache? <==>
                key in a.cachedTokens && a.cachedTokens[key].expiresAt > now + 300_000)
            && (b.callers[|a.callers|].FromCache? ==>
                  b.callers[|a.callers|] == FromCache(params, now, a.cachedTokens[key]) && b.refreshes == a.refreshes)
            && (!b.callers[|a.callers|].FromCache? ==> b.callers[|a.callers|].Waiting?)
  {
  }

  lemma AfterFirstAnswer(params: Params, answer: Answer)
    ensures var a := Run(INITIAL, [Call(params, 0), AzAnswers(0, answer, 0), CleanUp(0)]);
            var expiresAt := match answer.expiresOn case Some(at) => at case None => 3_300_000;
            && a.cachedTokens == map[CacheKey(params) := Entry(Token(params, answer.serial), expiresAt)]
            && a.refreshPromises == map[] && |a.refreshes| == 1 && |a.callers| == 1
  {
    RunThree(INITIAL, Call(params, 0), AzAnswers(0, answer, 0), CleanUp(0));
    var a := Step(INITIAL, Call(params, 0));
    assert a.refreshes == [Refresh(params, Pending, false)] && a.refreshPromises == map[CacheKey(params) := 0];
    var b := Step(a, AzAnswers(0, answer, 0));
    assert b.refreshes[0].outcome.Minted? && !b.refreshes[0].cleaned;
  }

  /** A token that az gave ten minutes serves callers for five; a later one starts a refresh. */
  lemma TenMinuteToken(params: Params, serial: nat, now: int)
    ensures var a := Run(INITIAL, [Call(params, 0), AzAnswers(0, Answer(serial, Some(600_000)), 0), CleanUp(0)]);
            var b := Step(a, Call(params, now));
            && (now < 300_000 ==>
                  b.callers == a.callers + [FromCache(params, now, Entry(Token(params, serial), 600_000))])
            && (now >= 300_000 ==> b.callers == a.callers + [Waiting(params, 1)] && |b.refreshes| == 2)
  {
    AfterFirstAnswer(params, Answer(serial, Some(600_000)));
  }

  /** The options for az: the subscription if there is one, else the tenant if there is one, else none. */
  lemma AccountOptions(p: Params)
    ensures p.subscriptionId.Some? && p.subscriptionId.value != "" ==>
              AccountArgs(p) == ["--subscription", p.subscriptionId.value]
    ensures (p.subscriptionId.None? || p.subscriptionId.value == "") && p.tenantId.Some? && p.tenantId.value != "" ==>
              AccountArgs(p) == ["--tenant", p.tenantId.value]
    ensures p == Params(None, None) || p == Params(Some(""), Some("")) ==> AccountArgs(p) == []
  {
  }

  /** The key is the subscription, a colon and the tenant, with nothing for what is absent. */
  lemma KeyTexts(subscription: string, tenant: string)
    ensures CacheKey(Params(Some(subscription), Some(tenant))) == subscription + ":" + tenant
    ensures CacheKey(Params(None, Some(tenant))) == "" + ":" + tenant
    ensures CacheKey(Params(Some(subscription), None)) == subscription + ":" + ""
  {
  }

  // ---------------------------------------------------------------- waiting callers, over runs

  /** What has become of a waiting caller: it still waits, or it has the outcome of the refresh it joined. */
  ghost predicate WaitsOrSettled(caller: Caller, b: Auth, c: nat) {
    && caller.Waiting? && c < |b.callers|
    && (b.callers[c] == caller
        || (caller.refresh < |b.refreshes| && b.refreshes[caller.refresh].outcome != Pending
            && b.callers[c] == Settled(caller.params, caller.refresh, b.refreshes[caller.refresh].outcome)))
  }

  lemma StepWaitsOrSettles(a: Auth, e: Event, caller: Caller, c: nat)
    requires Invariant(a) && WaitsOrSettled(caller, a, c)
    ensures WaitsOrSettled(caller, Step(a, e), c)
    ensures e == Resume(c) && caller.refresh < |a.refreshes| && a.refreshes[caller.refresh].cleaned ==>
              !Step(a, e).callers[c].Waiting?
  {
    StepGoesOn(a, e);
    if caller.refresh < |a.refreshes| {
      assert RefreshOk(a.refreshes[caller.refresh]);
      assert GoesOnAs(a.refreshes[caller.refresh], Step(a, e).refreshes[caller.refresh]);
    }
  }

  lemma {:induction false} RunWaitsOrSettles(a: Auth, events: seq<Event>, c: nat)
    requires Invariant(a) && Reset !in events && c < |a.callers| && a.callers[c].Waiting?
    ensures WaitsOrSettled(a.callers[c], Run(a, events), c)
  {
    if events != [] {
      var init := events[..|events| - 1];
      RunWaitsOrSettles(a, init, c);
      RunKeepsInvariant(a, init);
      StepWaitsOrSettles(Run(a, init), events[|events| - 1], a.callers[c], c);
    }
  }

  /**
   * Nobody is stranded: in every run, a waiting caller that is resumed once its refresh has been
   * cleaned up is answered with the outcome of the refresh it joined, for good.
   */
  lemma {:induction false} WaitingEnds(a: Auth, events: seq<Event>, i: nat, c: nat)
    requires Invariant(a) && Reset !in events && c < |a.callers| && a.callers[c].Waiting?
    requires i < |events| && events[i] == Resume(c)
    requires var r, b := a.callers[c].refresh, Run(a, events[..i]); r < |b.refreshes| && b.refreshes[r].cleaned
    ensures var caller, b := a.callers[c], Run(a, events);
            && c < |b.callers| && caller.refresh < |b.refreshes| && !b.callers[c].Waiting?
            && b.callers[c] == Settled(caller.params, caller.refresh, b.refreshes[caller.refresh].outcome)
            && (b.refreshes[caller.refresh].outcome == Failed ==>
                  b.callers[c] == Rejected(caller.params, caller.refresh))
            && (b.refreshes[caller.refresh].outcome.Minted? ==>
                  b.callers[c] == FromRefresh(caller.params, caller.refresh, b.refreshes[caller.refresh].outcome.entry))
  {
    var init, e := events[..|events| - 1], events[|events| - 1];
    var before := Run(a, init);
    RunWaitsOrSettles(a, events, c);
    RunWaitsOrSettles(a, init, c);
    RunKeepsInvariant(a, init);
    if i == |events| - 1 {
      StepWaitsOrSettles(before, e, a.callers[c], c);
    } else {
      assert init[..i] == events[..i];
      WaitingEnds(a, init, i, c);
      StepKeepsCallers(before, e, c);
    }
  }

  /** With a reset in mid-flight, the same key can have two refreshes in flight. */
  lemma ResetAllowsTwoRefreshes(params: Params, now: int)
    ensures var a := Run(INITIAL, [Call(params, now), Reset, Call(params, now)]);
            InFlight(a, 0) && InFlight(a, 1) && CacheKey(a.refreshes[0].params) == CacheKey(a.refreshes[1].params)
  {
    RunThree(INITIAL, Call(params, now), Reset, Call(params, now));
  }

  ghost predicate SingleFlight(a: Auth) {
    forall r: nat, q: nat | InFlight(a, r) && InFlight(a, q) ::
      CacheKey(a.refreshes[r].params) == CacheKey(a.refreshes[q].params) ==> r == q
  }

  /** No run without a reset that starts here ever has two refreshes of one key in flight. */
  ghost predicate StaysSingleFlight(a: Auth) {
    forall events: seq<Event> | Reset !in events :: SingleFlight(Run(a, events))
  }

  lemma ResetKeepsInvariant(a: Auth)
    requires Invariant(a) && forall r: nat :: !InFlight(a, r)
    ensures Invariant(Step(a, Reset))
  {
    var b := Step(a, Reset);
    assert forall r: nat :: InFlight(b, r) <==> InFlight(a, r);
    CallersUntouched(a, b);
  }

  /** A caller after the reset starts a second refresh beside one that was in flight. */
  lemma ResetSplitsFlight(a: Auth, r: nat)
    requires InFlight(a, r)
    ensures !StaysSingleFlight(Step(a, Reset))
  {
    var call := Call(a.refreshes[r].params, 0);
    var b := Run(Step(a, Reset), [call]);
    RunSnoc(Step(a, Reset), [], call);
    assert [] + [call] == [call] && Reset !in [call];
    assert InFlight(b, r) && InFlight(b, |a.refreshes|);
    assert b.refreshes[r].params == b.refreshes[|a.refreshes|].params == a.refreshes[r].params;
    assert !SingleFlight(b);
  }

  /** A reset keeps single flight, for every run that follows, exactly when nothing is in flight at that moment. */
  lemma ResetKeepsSingleFlight(a: Auth)
    requires Invariant(a)
    ensures StaysSingleFlight(Step(a, Reset)) <==> forall r: nat :: !InFlight(a, r)
  {
    if r: nat :| InFlight(a, r) {
      ResetSplitsFlight(a, r);
    } else {
      var b := Step(a, Reset);
      ResetKeepsInvariant(a);
      forall events: seq<Event> | Reset !in events ensures SingleFlight(Run(b, events)) {
        RunKeepsInvariant(b, events);
      }
    }
  }

  // ---------------------------------------------------------------- the module state, updated in place

  /** Refresh `r` is in flight for the key, and no other refresh is. */
  ghost predicate OnlyFlight(a: Auth, r: nat, key: string) {
    && InFlight(a, r) && CacheKey(a.refreshes[r].params) == key
    && forall q: nat :: InFlight(a, q) && CacheKey(a.refreshes[q].params) == key ==> q == r
  }

  lemma PromisedIsOnlyFlight(a: Auth, key: string)
    requires Invariant(a) && key in a.refreshPromises
    ensures OnlyFlight(a, a.refreshPromises[key], key)
  {
  }

  /** A caller is served a fresh cached token, or waits for the only refresh in flight for its key. */
  ghost predicate CallIsServed(a: Auth, params: Params, now: int, caller: Caller) {
    if HasFreshEntry(a, CacheKey(params), now)
    then caller == FromCache(params, now, a.cachedTokens[CacheKey(params)])
    else caller.Waiting? && caller.params == params && OnlyFlight(a, caller.refresh, CacheKey(params))
  }

  lemma CallServes(a: Auth, params: Params, now: int)
    requires Invariant(a)
    ensures var b := Step(a, Call(params, now));
            && |b.callers| == |a.callers| + 1 && b.cachedTokens == a.cachedTokens
            && CallIsServed(b, params, now, b.callers[|a.callers|])
  {
    if !HasFreshEntry(a, CacheKey(params), now) {
      CallKeepsInvariant(a, params, now);
      CallJoins(a, params, now);
      PromisedIsOnlyFlight(Step(a, Call(params, now)), CacheKey(params));
    }
  }

  /** Cleaning up ends the flight of one refresh, the only one for its key. */
  lemma CleanUpEndsFlight(a: Auth, r: nat)
    requires Invariant(a) && InFlight(a, r) && a.refreshes[r].outcome != Pending
    ensures var b := Step(a, CleanUp(r));
            && |b.refreshes| == |a.refreshes| && b.refreshes[r].params == a.refreshes[r].params
            && (forall q: nat :: InFlight(b, q) <==> InFlight(a, q) && q != r)
            && (forall q: nat :: InFlight(b, q) ==> CacheKey(b.refreshes[q].params) != CacheKey(b.refreshes[r].params))
  {
    var b := Step(a, CleanUp(r));
    assert forall q: nat :: InFlight(b, q) <==> InFlight(a, q) && q != r;
    forall q: nat | InFlight(b, q) ensures CacheKey(b.refreshes[q].params) != CacheKey(b.refreshes[r].params) {
      assert InFlight(a, q) && b.refreshes[q] == a.refreshes[q];
    }
  }

  class FoundryRuntimeAuth {
    var cachedTokens: map<string, Entry>
    var refreshPromises: map<string, nat>
    var refreshes: seq<Refresh>
    var callers: seq<Caller>
    ghost var history: seq<Event>

    function Value(): Auth
      reads this
    {
      Auth(cachedTokens, refreshPromises, refreshes, callers)
    }

    /** The state is that of a run without a reset, so what holds in every such run holds here. */
    ghost predicate Valid()
      reads this
    {
      Reset !in history && Value() == Run(INITIAL, history)
    }

    constructor ()
      ensures Valid() && history == []
    {
      cachedTokens, refreshPromises, refreshes, callers := map[], map[], [], [];
      history := [];
    }

    /**
     * `prepareFoundryRuntimeAuth` up to its first await: the caller is served a fresh cached token,
     * or waits for the only refresh in flight for its key.
     */
    method PrepareFoundryRuntimeAuth(params: Params, now: int)
      requires Valid()
      modifies this
      ensures Valid() && history == old(history) + [Call(params, now)]
      ensures cachedTokens == old(cachedTokens) && |callers| == |old(callers)| + 1
      ensures CallIsServed(Value(), params, now, callers[|old(callers)|])
    {
      ghost var before := Value();
      RunKeepsInvariant(INITIAL, history);
      CallServes(before, params, now);
      RunSnoc(INITIAL, history, Call(params, now));
      history := history + [Call(params, now)];
      var cacheKey := CacheKey(params);
      if cacheKey in cachedTokens && cachedTokens[cacheKey].expiresAt > now + TOKEN_REFRESH_MARGIN_MS {
        callers := callers + [FromCache(params, now, cachedTokens[cacheKey])];
        assert Value() == Step(before, Call(params, now));
        return;
      }
      if cacheKey !in refreshPromises {
        refreshPromises := refreshPromises[cacheKey := |refreshes|];
        refreshes := refreshes + [Refresh(params, Pending, false)];
      }
      callers := callers + [Waiting(params, refreshPromises[cacheKey])];
      assert Value() == Step(before, Call(params, now));
    }

    /** The rest of `refreshEntraToken`: the key now holds a token of its account, and other keys are not touched. */
    method StoreToken(r: nat, answer: Answer, now: int)
      requires Valid() && Unanswered(Value(), r)
      modifies this
      ensures Valid() && history == old(history) + [AzAnswers(r, answer, now)]
      ensures callers == old(callers) && refreshPromises == old(refreshPromises) && |refreshes| == |old(refreshes)|
      ensures var key := CacheKey(refreshes[r].params);
              && cachedTokens - {key} == old(cachedTokens) - {key}
              && key in cachedTokens && cachedTokens[key].token.mintedFor == refreshes[r].params
              && MintedBy(Value(), r, key) && cachedTokens[key].token.serial == answer.serial
              && (answer.expiresOn.Some? ==> cachedTokens[key].expiresAt == answer.expiresOn.value)
              && (answer.expiresOn.None? ==> cachedTokens[key].expiresAt == now + 3_300_000)
    {
      RunSnoc(INITIAL, history, AzAnswers(r, answer, now));
      history := history + [AzAnswers(r, answer, now)];
      var expiresAt := if answer.expiresOn.Some? then answer.expiresOn.value else now + DEFAULT_LIFETIME_MS;
      var params := refreshes[r].params;
      var entry := Entry(Token(params, answer.serial), expiresAt);
      cachedTokens := cachedTokens[CacheKey(params) := entry];
      refreshes := refreshes[r := refreshes[r].(outcome := Minted(entry))];
    }

    /** A failing `az`: the cache keeps what it had, and the refresh has failed for good. */
    method FailRefresh(r: nat)
      requires Valid() && Unanswered(Value(), r)
      modifies this
      ensures Valid() && history == old(history) + [AzFails(r)]
      ensures callers == old(callers) && cachedTokens == old(cachedTokens) && refreshPromises == old(refreshPromises)
      ensures forall events ::
                r < |Run(Value(), events).refreshes| && Run(Value(), events).refreshes[r].outcome == Failed
    {
      RunSnoc(INITIAL, history, AzFails(r));
      history := history + [AzFails(r)];
      refreshes := refreshes[r := refreshes[r].(outcome := Failed)];
      forall events
        ensures r < |Run(Value(), events).refreshes| && Run(Value(), events).refreshes[r].outcome == Failed
      {
        RunGoesOn(Value(), events);
        assert GoesOnAs(refreshes[r], Run(Value(), events).refreshes[r]);
      }
    }

    /** The `finally` callback of the refresh promise: afterwards nothing is in flight for its key. */
    method DropPromise(r: nat)
      requires Valid() && r < |refreshes| && refreshes[r].outcome != Pending && !refreshes[r].cleaned
      modifies this
      ensures Valid() && history == old(history) + [CleanUp(r)]
      ensures callers == old(callers) && cachedTokens == old(cachedTokens) && |refreshes| == |old(refreshes)|
      ensures forall q: nat :: InFlight(Value(), q) ==> CacheKey(refreshes[q].params) != CacheKey(refreshes[r].params)
      ensures forall q: nat :: InFlight(Value(), q) <==> InFlight(old(Value()), q) && q != r
    {
      ghost var before := Value();
      RunKeepsInvariant(INITIAL, history);
      RunSnoc(INITIAL, history, CleanUp(r));
      history := history + [CleanUp(r)];
      refreshPromises := refreshPromises - {CacheKey(refreshes[r].params)};
      refreshes := refreshes[r := refreshes[r].(cleaned := true)];
      CleanUpEndsFlight(before, r);
    }

    /** The rest of `prepareFoundryRuntimeAuth`: this caller alone gets the outcome of the refresh it joined. */
    method FinishCall(c: nat)
      requires Valid() && c < |callers| && callers[c].Waiting?
      requires callers[c].refresh < |refreshes| && refreshes[callers[c].refresh].cleaned
      modifies this
      ensures Valid() && history == old(history) + [Resume(c)]
      ensures cachedTokens == old(cachedTokens) && refreshPromises == old(refreshPromises)
      ensures refreshes == old(refreshes)
      ensures |callers| == |old(callers)| && forall d | 0 <= d < |callers| && d != c :: callers[d] == old(callers[d])
      ensures !callers[c].Waiting? && Joined(callers[c], old(callers[c].refresh))
      ensures ColonFreeCalls(history) ==> ServedProperly(Value(), callers[c])
    {
      RunKeepsInvariant(INITIAL, history);
      assert RefreshOk(refreshes[callers[c].refresh]);
      RunSnoc(INITIAL, history, Resume(c));
      history := history + [Resume(c)];
      var caller := callers[c];
      callers := callers[c := Settled(caller.params, caller.refresh, refreshes[caller.refresh].outcome)];
      if ColonFreeCalls(history) {
        CallersGetTheirOwnToken(history, c);
      }
    }
  }
}
