/** Which chats the subscriber keys of extensions/device-pair/notify.ts tell apart. */
module NotifyKeys {
  import opened Base
  import opened Text
  import opened NotifyState
  import opened PairNotify
  import opened NotifyRuns

  function AccountText(t: Target): string {
    if t.accountId.Some? then t.accountId.value else ""
  }

  /** The same chat, account and thread, as far as their texts go. */
  predicate SameTexts(t: Target, u: Target) {
    t.to == u.to && AccountText(t) == AccountText(u) && ThreadText(t.thread) == ThreadText(u.thread)
  }

  // ---------------------------------------------------------------- the targets of chats

  /** What the command context tells about the chat; an absent id is an empty one here. */
  datatype Context = Context(senderId: string, from: string, to: string, accountId: string, thread: Thread)

  /** `resolveNotifyTarget`. */
  function ResolveNotifyTarget(ctx: Context): Option<Target> {
    var to := if Trim(ctx.senderId) != "" then Trim(ctx.senderId)
              else if Trim(ctx.from) != "" then Trim(ctx.from) else Trim(ctx.to);
    if to == "" then None
    else Some(Target(to, if ctx.accountId == "" then None else Some(ctx.accountId), ctx.thread))
  }

  /** The chat's id is trimmed and not empty, and an account id is not empty. */
  predicate IsChat(t: Target) {
    t.to != "" && IsTrimmed(t.to) && t.accountId != Some("")
  }

  /** Those are the targets that chats resolve to. */
  lemma ChatsResolve(t: Target)
    ensures IsChat(t) <==> exists ctx :: ResolveNotifyTarget(ctx) == Some(t)
  {
    if IsChat(t) {
      TrimmedFixpoint(t.to);
      assert ResolveNotifyTarget(Context(t.to, "", "", AccountText(t), t.thread)) == Some(t);
    }
    forall ctx | ResolveNotifyTarget(ctx) == Some(t) ensures IsChat(t) {
      TrimmedFixpoint(ctx.senderId);
      TrimmedFixpoint(ctx.from);
      TrimmedFixpoint(ctx.to);
    }
  }

  /** A bar that ends what could be another chat's id. */
  predicate EndsChatId(to: string, i: nat) {
    0 < i < |to| && to[i] == '|' && IsTrimmed(to[..i])
  }

  /** No bar in the account or the thread, and none in the chat's id behind what could be another chat's id. */
  predicate HasOwnKey(t: Target) {
    '|' !in AccountText(t) && '|' !in ThreadText(t.thread) && forall i: nat | i < |t.to| :: !EndsChatId(t.to, i)
  }

  // ---------------------------------------------------------------- bars

  function Joined(a: string, b: string, c: string): string {
    a + "|" + b + "|" + c
  }

  lemma BarPlaces(a: string, b: string, c: string)
    ensures var s := Joined(a, b, c);
            && |s| == |a| + |b| + |c| + 2 && s[|a|] == '|' && s[|a| + 1 + |b|] == '|'
            && s[..|a|] == a && s[|a| + 1..|a| + 1 + |b|] == b && s[|a| + |b| + 2..] == c
  {
  }

  lemma BarsBehind(a: string, b: string, c: string)
    requires '|' !in b && '|' !in c
    ensures forall i | |a| < i < |Joined(a, b, c)| && i != |a| + 1 + |b| :: Joined(a, b, c)[i] != '|'
  {
    var s := Joined(a, b, c);
    forall i | |a| < i < |s| && i != |a| + 1 + |b| ensures s[i] != '|' {
      if i < |a| + 1 + |b| {
        assert s[i] == b[i - |a| - 1] && b[i - |a| - 1] in b;
      } else {
        assert s[i] == c[i - |a| - |b| - 2] && c[i - |a| - |b| - 2] in c;
      }
    }
  }

  lemma FrontOfJoined(a: string, b: string, c: string, n: nat)
    requires n <= |a|
    ensures Joined(a, b, c)[..n] == a[..n] && forall i | 0 <= i < |a| :: Joined(a, b, c)[i] == a[i]
  {
  }

  /** Equal keys have equal texts, or one first text ends at a bar of the other, if no bar stands behind that. */
  lemma JoinedApart(a: string, b: string, c: string, a': string, b': string, c': string)
    requires '|' !in b && '|' !in c && Joined(a, b, c) == Joined(a', b', c')
    ensures (a == a' && b == b' && c == c') || (|a'| < |a| && a[|a'|] == '|' && a' == a[..|a'|])
  {
    BarPlaces(a, b, c);
    BarPlaces(a', b', c');
    BarsBehind(a, b, c);
    if |a'| < |a| {
      FrontOfJoined(a, b, c, |a'|);
    } else {
      assert |a'| == |a| && |b'| == |b|;
    }
  }

  lemma SplitAtBar(s: string) returns (x: string, y: string)
    requires '|' in s
    ensures s == x + "|" + y
  {
    var i :| 0 <= i < |s| && s[i] == '|';
    x, y := s[..i], s[i + 1..];
  }

  /** A bar in one of the texts can be read as the end of that text or of an earlier one. */
  lemma BarsMove(a: string, b: string, c: string, x: string, y: string)
    ensures a == x + "|" + y ==> Joined(a, b, c) == Joined(x, y, b + "|" + c) && x != a
    ensures b == x + "|" + y ==> Joined(a, b, c) == Joined(a, x, y + "|" + c) && x != b
    ensures c == x + "|" + y ==> Joined(a, b, c) == Joined(a, b + "|" + x, y) && b + "|" + x != b
  {
    assert |x| < |x + "|" + y| && |b| < |b + "|" + x|;
  }

  function Account(text: string): Option<string> {
    if text == "" then None else Some(text)
  }

  lemma KeyIsJoined(t: Target)
    ensures Key(t) == Joined(t.to, AccountText(t), ThreadText(t.thread))
  {
  }

  lemma ChatOfTexts(to: string, account: string, thread: string) returns (u: Target)
    requires to != "" && IsTrimmed(to)
    ensures IsChat(u) && Key(u) == Joined(to, account, thread)
    ensures u.to == to && AccountText(u) == account && ThreadText(u.thread) == thread
  {
    u := Target(to, Account(account), TextThread(thread));
    KeyIsJoined(u);
  }

  lemma OtherAccount(t: Target) returns (u: Target)
    requires IsChat(t) && ('|' in AccountText(t) || '|' in ThreadText(t.thread))
    ensures IsChat(u) && Key(u) == Key(t) && !SameTexts(t, u)
  {
    var account, thread := AccountText(t), ThreadText(t.thread);
    KeyIsJoined(t);
    if '|' in account {
      var x, y := SplitAtBar(account);
      BarsMove(t.to, account, thread, x, y);
      u := ChatOfTexts(t.to, x, y + "|" + thread);
    } else {
      var x, y := SplitAtBar(thread);
      BarsMove(t.to, account, thread, x, y);
      u := ChatOfTexts(t.to, account + "|" + x, y);
    }
  }

  lemma OtherId(t: Target, i: nat) returns (u: Target)
    requires EndsChatId(t.to, i)
    ensures IsChat(u) && Key(u) == Key(t) && !SameTexts(t, u)
  {
    var account, thread := AccountText(t), ThreadText(t.thread);
    var x, y := t.to[..i], t.to[i + 1..];
    KeyIsJoined(t);
    assert t.to == x + "|" + y;
    BarsMove(t.to, account, thread, x, y);
    u := ChatOfTexts(x, y, account + "|" + thread);
  }

  lemma OtherChat(t: Target) returns (u: Target)
    requires IsChat(t) && !HasOwnKey(t)
    ensures IsChat(u) && Key(u) == Key(t) && !SameTexts(t, u)
  {
    if i: nat :| i < |t.to| && EndsChatId(t.to, i) {
      u := OtherId(t, i);
    } else {
      u := OtherAccount(t);
    }
  }

  /** The chats whose key no other chat shares. */
  lemma KeyIsUnshared(t: Target)
    requires IsChat(t)
    ensures (forall u: Target | IsChat(u) :: Key(u) == Key(t) ==> SameTexts(t, u)) <==> HasOwnKey(t)
  {
    if HasOwnKey(t) {
      forall u: Target | IsChat(u) && Key(u) == Key(t) ensures SameTexts(t, u) {
        KeyIsJoined(t);
        KeyIsJoined(u);
        JoinedApart(t.to, AccountText(t), ThreadText(t.thread), u.to, AccountText(u), ThreadText(u.thread));
        assert !EndsChatId(t.to, |u.to|);
      }
    } else {
      var u := OtherChat(t);
    }
  }

  // ---------------------------------------------------------------- threads

  /** The two threads are written alike without being equal. */
  predicate WrittenAlike(a: Thread, b: Thread) {
    || (a.NoThread? && b == TextThread(""))
    || (a.NumberThread? && b == TextThread(SignedNumeral(a.number)))
  }

  lemma SignedNumeralStart(n: int)
    ensures SignedNumeral(n) != "" && (SignedNumeral(n)[0] == '-' <==> n < 0)
  {
    var digits := Numeral(if n < 0 then -n else n);
    assert digits[0] in digits;
  }

  lemma SignedNumeralIsInjective(m: int, n: int)
    requires SignedNumeral(m) == SignedNumeral(n)
    ensures m == n
  {
    SignedNumeralStart(m);
    SignedNumeralStart(n);
    var a, b := if m < 0 then -m else m, if n < 0 then -n else n;
    assert m < 0 ==> SignedNumeral(m)[1..] == Numeral(a) && SignedNumeral(n)[1..] == Numeral(b);
    assert Numeral(a) == Numeral(b);
    ParseNumeral(a);
    ParseNumeral(b);
  }

  /** Threads share a text exactly when they are equal, or one is the other's text: number 5 and text "5" are one. */
  lemma ThreadsShareText(a: Thread, b: Thread)
    ensures ThreadText(a) == ThreadText(b) <==> a == b || WrittenAlike(a, b) || WrittenAlike(b, a)
  {
    if a.NumberThread? {
      SignedNumeralStart(a.number);
    }
    if b.NumberThread? {
      SignedNumeralStart(b.number);
    }
    if a.NumberThread? && b.NumberThread? && ThreadText(a) == ThreadText(b) {
      SignedNumeralIsInjective(a.number, b.number);
    }
  }

  // ---------------------------------------------------------------- commands

  /** The key a command acts on. */
  function CommandKey(e: Event): string
    requires !e.PollTick?
  {
    Key(e.target)
  }

  lemma {:induction false} WithoutConcat(a: seq<Subscription>, b: seq<Subscription>, keys: set<string>)
    ensures Without(a + b, keys) == Without(a, keys) + Without(b, keys)
  {
    if b == [] {
      assert a + b == a;
    } else {
      assert (a + b)[..|a + b| - 1] == a + b[..|b| - 1];
      WithoutConcat(a, b[..|b| - 1], keys);
    }
  }

  /** An entry with a dropped key might as well not be there. */
  lemma WithoutOne(a: seq<Subscription>, one: Subscription, b: seq<Subscription>, keys: set<string>)
    requires Key(one.target) in keys
    ensures Without(a + [one] + b, keys) == Without(a + b, keys)
  {
    WithoutSnoc(a, one, keys);
    WithoutConcat(a + [one], b, keys);
    WithoutConcat(a, b, keys);
  }

  lemma WithoutSnoc(a: seq<Subscription>, one: Subscription, keys: set<string>)
    requires Key(one.target) in keys
    ensures Without(a + [one], keys) == Without(a, keys)
  {
    assert (a + [one])[..|a|] == a;
  }

  lemma SplitAt<T>(s: seq<T>, n: nat)
    requires n < |s|
    ensures s == s[..n] + [s[n]] + s[n + 1..]
  {
  }

  lemma DroppedOne(subscribers: seq<Subscription>, n: nat, keys: set<string>)
    requires n < |subscribers| && Key(subscribers[n].target) in keys
    ensures Without(subscribers[..n] + subscribers[n + 1..], keys) == Without(subscribers, keys)
  {
    SplitAt(subscribers, n);
    WithoutOne(subscribers[..n], subscribers[n], subscribers[n + 1..], keys);
  }

  lemma ReplacedOne(subscribers: seq<Subscription>, n: nat, next: Subscription, keys: set<string>)
    requires n < |subscribers| && Key(subscribers[n].target) in keys && Key(next.target) in keys
    ensures Without(subscribers[n := next], keys) == Without(subscribers, keys)
  {
    var replaced := subscribers[n := next];
    assert replaced[..n] == subscribers[..n] && replaced[n + 1..] == subscribers[n + 1..];
    DroppedOne(subscribers, n, keys);
    DroppedOne(replaced, n, keys);
  }

  lemma UpsertLeavesOthers(subscribers: seq<Subscription>, target: Target, mode: Mode, now: int)
    ensures Without(Upsert(subscribers, target, mode, now), {Key(target)}) == Without(subscribers, {Key(target)})
  {
    var n, next := IndexOfKey(subscribers, Key(target)), Subscription(target, mode, now);
    if n == |subscribers| {
      WithoutSnoc(subscribers, next, {Key(target)});
    } else {
      ReplacedOne(subscribers, n, next, {Key(target)});
    }
  }

  lemma RemovalOf(subscribers: seq<Subscription>, key: string) returns (n: nat)
    ensures n <= |subscribers| && n == IndexOfKey(subscribers, key)
    ensures n == |subscribers| ==> RemoveKey(subscribers, key) == subscribers
    ensures n < |subscribers| ==>
              && Key(subscribers[n].target) == key
              && RemoveKey(subscribers, key) == subscribers[..n] + subscribers[n + 1..]
  {
    n := IndexOfKey(subscribers, key);
  }

  lemma RemoveLeavesOthers(subscribers: seq<Subscription>, key: string)
    ensures Without(RemoveKey(subscribers, key), {key}) == Without(subscribers, {key})
  {
    var n := RemovalOf(subscribers, key);
    if n < |subscribers| {
      DroppedOne(subscribers, n, {key});
    }
  }

  /** A command leaves the subscriptions of all other keys alone, in their order, and what is remembered. */
  lemma CommandLeavesOthers(s: State, e: Event)
    requires !e.PollTick?
    ensures Step(s, e).notified == s.notified
    ensures Without(Step(s, e).subscribers, {CommandKey(e)}) == Without(s.subscribers, {CommandKey(e)})
  {
    match e
    case NotifyOn(target, now) => UpsertLeavesOthers(s.subscribers, target, Persistent, now);
    case ArmOnce(target, now) => UpsertLeavesOthers(s.subscribers, target, Once, now);
    case NotifyOff(target) => RemoveLeavesOthers(s.subscribers, Key(target));
  }

  // ---------------------------------------------------------------- what commands and contexts do, told case by case

  lemma UpsertedMembers(subscribers: seq<Subscription>, target: Target, mode: Mode, now: int, sub: Subscription)
    requires DistinctKeys(subscribers)
    ensures sub in Upsert(subscribers, target, mode, now) <==>
            || (sub in subscribers && (Key(sub.target) != Key(target) || sub.mode == mode))
            || (sub == Subscription(target, mode, now) && !AlreadyThere(subscribers, target, mode))
  {
    var n, next := IndexOfKey(subscribers, Key(target)), Subscription(target, mode, now);
    var after := Upsert(subscribers, target, mode, now);
    UpsertUnchanged(subscribers, target, mode, now);
    if n == |subscribers| {
      assert after[n] == next;
      assert forall k | 0 <= k < n :: after[k] == subscribers[k];
    } else if subscribers[n].mode != mode {
      assert after[n] == next;
      assert forall k | 0 <= k < |subscribers| && k != n :: after[k] == subscribers[k];
    }
  }

  lemma DroppedMembers<T>(s: seq<T>, n: nat, x: T)
    requires n < |s|
    ensures x in s[..n] + s[n + 1..] <==> exists k :: 0 <= k < |s| && k != n && s[k] == x
  {
    var r := s[..n] + s[n + 1..];
    if x in r {
      var k :| 0 <= k < |r| && r[k] == x;
      assert s[if k < n then k else k + 1] == x;
    }
    if k :| 0 <= k < |s| && k != n && s[k] == x {
      assert r[if k < n then k else k - 1] == x;
    }
  }

  lemma OthersOfKey(subscribers: seq<Subscription>, n: nat, sub: Subscription)
    requires DistinctKeys(subscribers) && n < |subscribers|
    ensures (exists k :: 0 <= k < |subscribers| && k != n && subscribers[k] == sub) <==>
            sub in subscribers && Key(sub.target) != Key(subscribers[n].target)
  {
  }

  lemma RemovedMembers(subscribers: seq<Subscription>, key: string, sub: Subscription)
    requires DistinctKeys(subscribers)
    ensures sub in RemoveKey(subscribers, key) <==> sub in subscribers && Key(sub.target) != key
  {
    var n := RemovalOf(subscribers, key);
    if n < |subscribers| {
      DroppedMembers(subscribers, n, sub);
      OthersOfKey(subscribers, n, sub);
    } else {
      NoKey(subscribers, key);
    }
  }

  lemma NoKey(subscribers: seq<Subscription>, key: string)
    ensures IndexOfKey(subscribers, key) == |subscribers| ==> forall sub | sub in subscribers :: Key(sub.target) != key
  {
  }

  /**
   * The subscriptions a command leaves: `on` and `once` bring the chat's own into the wanted mode, with the
   * time of the command unless it was there already, and `off` takes it away; all others stay.
   */
  lemma CommandLeaves(s: State, target: Target, now: int, sub: Subscription)
    requires DistinctKeys(s.subscribers)
    ensures sub in Step(s, NotifyOn(target, now)).subscribers <==>
            || (sub in s.subscribers && (Key(sub.target) != Key(target) || sub.mode == Persistent))
            || (sub == Subscription(target, Persistent, now)
                && forall had | had in s.subscribers && Key(had.target) == Key(target) :: had.mode == Once)
    ensures sub in Step(s, ArmOnce(target, now)).subscribers <==>
            || (sub in s.subscribers && (Key(sub.target) != Key(target) || sub.mode == Once))
            || (sub == Subscription(target, Once, now)
                && forall had | had in s.subscribers && Key(had.target) == Key(target) :: had.mode == Persistent)
    ensures sub in Step(s, NotifyOff(target)).subscribers <==> sub in s.subscribers && Key(sub.target) != Key(target)
  {
    UpsertedMembers(s.subscribers, target, Persistent, now, sub);
    UpsertedMembers(s.subscribers, target, Once, now, sub);
    RemovedMembers(s.subscribers, Key(target), sub);
  }

  /** The sender goes before the chat a message came from, and that before the one it went to, unless blank. */
  lemma ContextDecides(ctx: Context)
    ensures var target := ResolveNotifyTarget(ctx);
            && (target == None <==> IsBlank(ctx.senderId) && IsBlank(ctx.from) && IsBlank(ctx.to))
            && (target.Some? ==>
                  && (!IsBlank(ctx.senderId) ==> target.value.to == Trim(ctx.senderId))
                  && (IsBlank(ctx.senderId) && !IsBlank(ctx.from) ==> target.value.to == Trim(ctx.from))
                  && (IsBlank(ctx.senderId) && IsBlank(ctx.from) ==> target.value.to == Trim(ctx.to))
                  && (target.value.accountId == if ctx.accountId == "" then None else Some(ctx.accountId))
                  && target.value.thread == ctx.thread)
  {
    BlankIsTrimmedAway(ctx.senderId);
    BlankIsTrimmedAway(ctx.from);
    BlankIsTrimmedAway(ctx.to);
  }

  /** The key is the chat, the account and the thread, in this order, with bars between. */
  lemma KeyTexts(to: string, account: string, text: string, number: int)
    ensures Key(Target(to, Some(account), TextThread(text))) == to + "|" + account + "|" + text
    ensures Key(Target(to, None, NumberThread(number))) == to + "|" + "" + "|" + SignedNumeral(number)
    ensures Key(Target(to, None, NoThread)) == to + "|" + "" + "|" + ""
  {
  }
}
