/** Delivery guarantees over whole serialised runs of the pairing notifier. */
module NotifySafety {
  import opened Base
  import opened Text
  import opened NotifyState
  import opened PairNotify
  import opened NotifyDeliveries
  import opened NotifyRuns

  // ---------------------------------------------------------------- no early repeat of a request

  /** The event leaves a memory of the id alone: if it is a tick, the id is pending and not too old. */
  predicate SparesMemory(e: Event, id: string, stamp: int) {
    e.PollTick? ==> id in PendingIds(e.poll.pending) && e.poll.now - stamp <= NOTIFY_MAX_SEEN_AGE_MS
  }

  lemma MemoryStep(s: State, e: Event, id: string, stamp: int)
    requires id in s.notified && s.notified[id] == stamp != 0
    requires SparesMemory(e, id, stamp)
    ensures id in Step(s, e).notified && Step(s, e).notified[id] == stamp
  {
    if e.PollTick? {
      RememberedIdIsSkipped(s, e.poll, id);
    }
  }

  lemma {:induction false} MemoryLasts(s: State, events: seq<Event>, a: nat, b: nat, id: string, stamp: int)
    requires a <= b <= |events| && stamp != 0
    requires id in Before(s, events, a).notified && Before(s, events, a).notified[id] == stamp
    requires forall k | a <= k < b :: SparesMemory(events[k], id, stamp)
    ensures id in Before(s, events, b).notified && Before(s, events, b).notified[id] == stamp
    decreases b
  {
    if a < b {
      MemoryLasts(s, events, a, b - 1, id, stamp);
      BeforeNext(s, events, b - 1);
      MemoryStep(Before(s, events, b - 1), events[b - 1], id, stamp);
    }
  }

  ghost predicate MonotoneClock(events: seq<Event>) {
    forall i, j | 0 <= i < j < |events| && events[i].PollTick? && events[j].PollTick? ::
      events[i].poll.now <= events[j].poll.now
  }

  /** A request id delivered at two ticks was not pending at some tick in between, or a day has passed. */
  lemma NoEarlyRepeat(s: State, events: seq<Event>, a: nat, b: nat, id: string)
    requires a < b < |events| && events[a].PollTick? && events[b].PollTick?
    requires events[a].poll.now > 0 && MonotoneClock(events)
    requires DeliversId(Before(s, events, a), events[a].poll, id)
    requires DeliversId(Before(s, events, b), events[b].poll, id)
    ensures events[b].poll.now - events[a].poll.now > NOTIFY_MAX_SEEN_AGE_MS ||
            exists k :: a < k < b && events[k].PollTick? && id !in PendingIds(events[k].poll.pending)
  {
    if events[b].poll.now - events[a].poll.now <= NOTIFY_MAX_SEEN_AGE_MS &&
       forall k | a < k < b && events[k].PollTick? :: id in PendingIds(events[k].poll.pending)
    {
      var stamp := events[a].poll.now;
      BeforeNext(s, events, a);
      DeliveredIdIsStamped(Before(s, events, a), events[a].poll, id);
      assert forall k | a + 1 <= k < b :: SparesMemory(events[k], id, stamp);
      MemoryLasts(s, events, a + 1, b, id, stamp);
      DeliveredIdIsStamped(Before(s, events, b), events[b].poll, id);
      RememberedIdIsSkipped(Before(s, events, b), events[b].poll, id);
    }
  }

  // ---------------------------------------------------------------- one-shot subscriptions

  /** Subscriber `j` is a one-shot subscriber that this tick delivers something to. */
  ghost predicate Served(s: State, poll: Poll, j: nat)
    requires j < |s.subscribers|
  {
    s.subscribers[j].mode == Once && exists i: nat :: i < |poll.pending| && Delivers(s, poll, i, j)
  }

  lemma ServedKeys(s: State, poll: Poll, j: nat)
    requires j < |s.subscribers| && DistinctKeys(s.subscribers)
    ensures Key(s.subscribers[j].target) in ServedOnce(s, poll, |poll.pending|) <==> Served(s, poll, j)
  {
  }

  /** A tick removes a subscription exactly when it is one-shot and a delivery to it succeeded. */
  lemma TickRemovesServed(s: State, poll: Poll, j: nat)
    requires Good(s) && j < |s.subscribers|
    ensures s.subscribers[j] !in Tick(s, poll).subscribers <==> Served(s, poll, j)
  {
    ServedKeys(s, poll, j);
    WithoutMembers(s.subscribers, ServedOnce(s, poll, |poll.pending|), s.subscribers[j]);
  }

  /** A tick adds no subscription. */
  lemma TickAddsNone(s: State, poll: Poll, sub: Subscription)
    requires sub in Tick(s, poll).subscribers
    ensures sub in s.subscribers
  {
    WithoutMembers(s.subscribers, ServedOnce(s, poll, |poll.pending|), sub);
  }

  ghost predicate HasOnce(s: State, key: string) {
    exists sub :: sub in s.subscribers && Key(sub.target) == key && sub.mode == Once
  }

  predicate Arms(e: Event, key: string) {
    e.ArmOnce? && Key(e.target) == key
  }

  lemma UpsertMembers(subscribers: seq<Subscription>, target: Target, mode: Mode, now: int, sub: Subscription)
    requires sub in Upsert(subscribers, target, mode, now)
    ensures sub in subscribers || sub == Subscription(target, mode, now)
  {
  }

  /** Only arming brings a one-shot subscription into being. */
  lemma StepOnce(s: State, e: Event, key: string)
    requires HasOnce(Step(s, e), key) && !Arms(e, key)
    ensures HasOnce(s, key)
  {
    var sub :| sub in Step(s, e).subscribers && Key(sub.target) == key && sub.mode == Once;
    match e
    case PollTick(poll) => TickAddsNone(s, poll, sub);
    case NotifyOn(target, now) => UpsertMembers(s.subscribers, target, Persistent, now, sub);
    case ArmOnce(target, now) => UpsertMembers(s.subscribers, target, Once, now, sub);
    case NotifyOff(target) =>
  }

  lemma {:induction false} StaysUnarmed(s: State, events: seq<Event>, a: nat, b: nat, key: string)
    requires a <= b <= |events| && !HasOnce(Before(s, events, a), key)
    requires forall k | a <= k < b :: !Arms(events[k], key)
    ensures !HasOnce(Before(s, events, b), key)
    decreases b
  {
    if a < b {
      StaysUnarmed(s, events, a, b - 1, key);
      BeforeNext(s, events, b - 1);
      if HasOnce(Before(s, events, b), key) {
        StepOnce(Before(s, events, b - 1), events[b - 1], key);
      }
    }
  }

  /** A one-shot subscription is served in at most one tick: a second service needs a new arming in between. */
  lemma ServedAtMostOnce(s: State, events: seq<Event>, a: nat, b: nat, key: string)
    requires a < b < |events| && events[a].PollTick? && events[b].PollTick?
    requires key in ServedOnce(Before(s, events, a), events[a].poll, |events[a].poll.pending|)
    requires key in ServedOnce(Before(s, events, b), events[b].poll, |events[b].poll.pending|)
    ensures exists k :: a < k < b && Arms(events[k], key)
  {
    var at := Before(s, events, a);
    BeforeNext(s, events, a);
    forall sub | sub in Before(s, events, a + 1).subscribers ensures Key(sub.target) != key {
      WithoutMembers(at.subscribers, ServedOnce(at, events[a].poll, |events[a].poll.pending|), sub);
    }
    if forall k | a < k < b :: !Arms(events[k], key) {
      StaysUnarmed(s, events, a + 1, b, key);
    }
  }

  /** Every one-shot subscription was there at the start or carries the time of the command that armed it. */
  lemma {:induction false} OnceWasArmed(s: State, events: seq<Event>, sub: Subscription)
    requires sub in Run(s, events).subscribers && sub.mode == Once
    ensures sub in s.subscribers || exists k :: 0 <= k < |events| && events[k] == ArmOnce(sub.target, sub.addedAtMs)
  {
    if events != [] {
      var n := |events| - 1;
      var init, e := events[..n], events[n];
      if e != ArmOnce(sub.target, sub.addedAtMs) {
        KeptByStep(Run(s, init), e, sub);
        OnceWasArmed(s, init, sub);
        if k :| 0 <= k < n && init[k] == ArmOnce(sub.target, sub.addedAtMs) {
          assert events[k] == init[k];
        }
      }
    }
  }

  lemma KeptByStep(s: State, e: Event, sub: Subscription)
    requires sub in Step(s, e).subscribers && sub.mode == Once && e != ArmOnce(sub.target, sub.addedAtMs)
    ensures sub in s.subscribers
  {
    match e
    case PollTick(poll) => TickAddsNone(s, poll, sub);
    case NotifyOn(target, now) => UpsertMembers(s.subscribers, target, Persistent, now, sub);
    case ArmOnce(target, now) => UpsertMembers(s.subscribers, target, Once, now, sub);
    case NotifyOff(target) =>
  }

  /**
   * In every run, a one-shot subscriber only hears of requests stamped at or after the time it carries;
   * it was there at the start, or that is the time at which a command of the run armed it.
   */
  lemma OneShotHearsOnlyNewRequests(s: State, events: seq<Event>, b: nat, i: nat, j: nat)
    requires b < |events| && events[b].PollTick? && i < |events[b].poll.pending|
    requires Delivers(Before(s, events, b), events[b].poll, i, j)
    requires Before(s, events, b).subscribers[j].mode == Once
    ensures var sub := Before(s, events, b).subscribers[j];
            && RequestTimestamp(events[b].poll.pending[i]).Some?
            && RequestTimestamp(events[b].poll.pending[i]).value >= sub.addedAtMs
            && (sub in s.subscribers || exists k :: 0 <= k < b && events[k] == ArmOnce(sub.target, sub.addedAtMs))
  {
    var sub := Before(s, events, b).subscribers[j];
    OnceWasArmed(s, events[..b], sub);
    if k :| 0 <= k < b && events[..b][k] == ArmOnce(sub.target, sub.addedAtMs) {
      assert events[k] == events[..b][k];
    }
  }

  // ---------------------------------------------------------------- what the guarantees rest on

  /** Two overlapping polls that read the same file both deliver the same request to the same subscriber. */
  lemma OverlappingPollsRepeat(w: World, poll: Poll, now: int, i: nat, j: nat)
    requires i < |poll.pending| && Delivers(ReadFile(w.file, now), poll, i, j)
    ensures var v := ActAll(w, [Read(0, false, now), Read(1, false, now)]);
            && 0 in v.snapshots && 1 in v.snapshots
            && Delivers(v.snapshots[0], poll, i, j)
            && 1 in Act(v, Apply(0, PollTick(poll))).snapshots
            && Delivers(Act(v, Apply(0, PollTick(poll))).snapshots[1], poll, i, j)
  {
    var first, second := Read(0, false, now), Read(1, false, now);
    assert [first, second] == [] + [first] + [second];
    ActAllSnoc(w, [], first);
    ActAllSnoc(w, [] + [first], second);
    assert ActAll(w, []) == w;
  }

  /** The state a read yields. */
  function ReadAt(w: World, a: Action): State
    requires a.Read?
  {
    if a.unreadable then EMPTY_STATE else ReadFile(w.file, a.now)
  }

  /** The snapshot a reader holds is what its last read found in the file of that time. */
  lemma {:induction false} SnapshotWasRead(w: World, actions: seq<Action>, reader: nat) returns (c: nat)
    requires reader in ActAll(w, actions).snapshots && reader !in w.snapshots
    ensures c < |actions| && actions[c].Read? && actions[c].reader == reader
    ensures ActAll(w, actions).snapshots[reader] == ReadAt(WorldBefore(w, actions, c), actions[c])
    ensures forall m | c < m < |actions| :: actions[m].reader != reader
  {
    var n := |actions| - 1;
    if actions[n].reader == reader {
      c := n;
    } else {
      c := SnapshotWasRead(w, actions[..n], reader);
      assert actions[..n][..c] == actions[..c];
    }
  }

  /** The snapshot a reader applies action number `k` to is what it last read before. */
  lemma SnapshotBefore(w: World, actions: seq<Action>, k: nat, reader: nat) returns (c: nat)
    requires k <= |actions| && reader in WorldBefore(w, actions, k).snapshots && reader !in w.snapshots
    ensures c < k && actions[c].Read? && actions[c].reader == reader
    ensures forall m | c < m < k :: actions[m].reader != reader
    ensures WorldBefore(w, actions, k).snapshots[reader] == ReadAt(WorldBefore(w, actions, c), actions[c])
  {
    c := SnapshotWasRead(w, actions[..k], reader);
    assert actions[..k][..c] == actions[..c];
  }

  /**
   * However polls and commands interleave, a poll delivers an id, again or for the first time, exactly
   * when the file did not remember the id at the moment the poll read it and a send for it succeeds.
   */
  lemma InterleavedDeliversExactly(w: World, actions: seq<Action>, k: nat, reader: nat, poll: Poll, id: string)
    returns (c: nat)
    requires k < |actions| && actions[k] == Apply(reader, PollTick(poll))
    requires reader in WorldBefore(w, actions, k).snapshots && reader !in w.snapshots
    ensures c < k && actions[c].Read? && actions[c].reader == reader
    ensures forall m | c < m < k :: actions[m].reader != reader
    ensures var seen := ReadAt(WorldBefore(w, actions, c), actions[c]);
            DeliversId(WorldBefore(w, actions, k).snapshots[reader], poll, id) <==>
            !Remembers(seen, poll, id) && SendSucceeds(seen, poll, id)
  {
    c := SnapshotBefore(w, actions, k, reader);
    DeliversExactly(ReadAt(WorldBefore(w, actions, c), actions[c]), poll, id);
  }

  /**
   * However polls and commands interleave, a poll serves a one-shot key, again or for the first time,
   * exactly when the file held such a subscription, to be served, at the moment the poll read it.
   */
  lemma InterleavedServesExactly(w: World, actions: seq<Action>, k: nat, reader: nat, poll: Poll, key: string)
    returns (c: nat)
    requires k < |actions| && actions[k] == Apply(reader, PollTick(poll)) && poll.now != 0
    requires reader in WorldBefore(w, actions, k).snapshots && reader !in w.snapshots
    ensures c < k && actions[c].Read? && actions[c].reader == reader
    ensures forall m | c < m < k :: actions[m].reader != reader
    ensures key in ServedOnce(WorldBefore(w, actions, k).snapshots[reader], poll, |poll.pending|) <==>
            WouldServe(ReadAt(WorldBefore(w, actions, c), actions[c]), poll, key)
  {
    c := SnapshotBefore(w, actions, k, reader);
    ServesExactly(ReadAt(WorldBefore(w, actions, c), actions[c]), poll, key);
  }

  /** A poll delivers what its snapshot does not remember, and what the file remembers only from a stale snapshot. */
  lemma PollRepeatsExactly(w: World, reader: nat, poll: Poll, id: string, now: int)
    requires reader in w.snapshots
    ensures DeliversId(w.snapshots[reader], poll, id) <==>
            !Remembers(w.snapshots[reader], poll, id) && SendSucceeds(w.snapshots[reader], poll, id)
    ensures Remembers(ReadFile(w.file, now), poll, id) && DeliversId(w.snapshots[reader], poll, id) ==>
              w.snapshots[reader] != ReadFile(w.file, now)
  {
    DeliversExactly(w.snapshots[reader], poll, id);
  }

  /** The file after a first poll has been applied, with a second one that has read before it or that reads after it. */
  function Overlapped(w: World, first: Poll, now: int): World {
    Act(Act(Act(w, Read(0, false, now)), Read(1, false, now)), Apply(0, PollTick(first)))
  }

  function OneByOne(w: World, first: Poll, now: int): World {
    Act(Act(Act(w, Read(0, false, now)), Apply(0, PollTick(first))), Read(1, false, now))
  }

  lemma SecondSnapshots(w: World, first: Poll, now: int)
    requires GoodWorld(w) && w.snapshots == map[] && ValidEvent(PollTick(first))
    ensures 1 in Overlapped(w, first, now).snapshots
            && Overlapped(w, first, now).snapshots[1] == ReadFile(w.file, now)
    ensures 1 in OneByOne(w, first, now).snapshots
            && OneByOne(w, first, now).snapshots[1] == Tick(ReadFile(w.file, now), first)
  {
    UninterruptedEvent(w, PollTick(first), now);
  }

  /**
   * When a first poll delivers an id, a second one that has already read the file repeats it exactly
   * when its own send succeeds; one that reads after the first has written repeats it exactly when more
   * than a day has passed and its send succeeds.
   */
  lemma SecondPollRepeatsExactly(w: World, first: Poll, second: Poll, id: string, now: int)
    requires GoodWorld(w) && w.snapshots == map[] && ValidEvent(PollTick(first)) && first.now <= second.now
    requires DeliversId(ReadFile(w.file, now), first, id)
    ensures 1 in Overlapped(w, first, now).snapshots && 1 in OneByOne(w, first, now).snapshots
    ensures var snapshot := Overlapped(w, first, now).snapshots[1];
            DeliversId(snapshot, second, id) <==> SendSucceeds(snapshot, second, id)
    ensures var snapshot := OneByOne(w, first, now).snapshots[1];
            DeliversId(snapshot, second, id) <==>
            second.now - first.now > NOTIFY_MAX_SEEN_AGE_MS && SendSucceeds(snapshot, second, id)
  {
    var s := ReadFile(w.file, now);
    SecondSnapshots(w, first, now);
    DeliversExactly(s, first, id);
    DeliversExactly(s, second, id);
    DeliveredIdIsStamped(s, first, id);
    DeliversExactly(Tick(s, first), second, id);
  }

  lemma NoOnceNotServed(s: State, poll: Poll, key: string)
    requires !HasOnce(s, key)
    ensures key !in ServedOnce(s, poll, |poll.pending|)
  {
  }

  lemma TickDropsServed(s: State, poll: Poll, key: string)
    requires key in ServedOnce(s, poll, |poll.pending|)
    ensures !HasOnce(Tick(s, poll), key)
  {
    forall sub | sub in Tick(s, poll).subscribers ensures Key(sub.target) != key {
      WithoutMembers(s.subscribers, ServedOnce(s, poll, |poll.pending|), sub);
    }
  }

  /**
   * When a first poll serves a one-shot key, a second one that has already read the file serves it again
   * exactly when a send of its own would; one that reads after the first has written does not.
   */
  lemma SecondPollServesExactly(w: World, first: Poll, second: Poll, key: string, now: int)
    requires GoodWorld(w) && w.snapshots == map[] && ValidEvent(PollTick(first)) && second.now != 0
    requires key in ServedOnce(ReadFile(w.file, now), first, |first.pending|)
    ensures 1 in Overlapped(w, first, now).snapshots && 1 in OneByOne(w, first, now).snapshots
    ensures key in ServedOnce(Overlapped(w, first, now).snapshots[1], second, |second.pending|) <==>
            WouldServe(ReadFile(w.file, now), second, key)
    ensures key !in ServedOnce(OneByOne(w, first, now).snapshots[1], second, |second.pending|)
  {
    SecondSnapshots(w, first, now);
    ServesExactly(ReadFile(w.file, now), second, key);
    TickDropsServed(ReadFile(w.file, now), first, key);
    NoOnceNotServed(Tick(ReadFile(w.file, now), first), second, key);
  }

  const ONE_CHAT := State([Subscription(Target("c", None, NoThread), Persistent, 0)], map[])
  const ONE_REQUEST := Poll(1, [Request("r", None)], {(0, 0)})

  lemma OneChatDelivers()
    ensures DeliversId(ONE_CHAT, ONE_REQUEST, "r")
  {
    assert Sends(ONE_CHAT.subscribers, ONE_REQUEST, 0, 0);
    assert SentFor(ONE_CHAT, ONE_REQUEST, 0, "r");
    DeliversExactly(ONE_CHAT, ONE_REQUEST, "r");
  }

  lemma OneChatIsGood()
    ensures Good(ONE_CHAT)
  {
    assert |ONE_CHAT.subscribers| == 1;
    TrimmedFixpoint("c");
  }

  /** One chat, one request, two polls in the same millisecond: the chat hears of the request twice. */
  lemma HeardTwice(now: int)
    ensures var w := World(Some(Encode(ONE_CHAT)), map[]);
            && DeliversId(ReadFile(w.file, now), ONE_REQUEST, "r")
            && 1 in Overlapped(w, ONE_REQUEST, now).snapshots
            && DeliversId(Overlapped(w, ONE_REQUEST, now).snapshots[1], ONE_REQUEST, "r")
  {
    OneChatIsGood();
    EncodedIsGood(ONE_CHAT);
    StateRoundTrip(ONE_CHAT, now);
    OneChatDelivers();
    TrimmedFixpoint("r");
    SecondSnapshots(World(Some(Encode(ONE_CHAT)), map[]), ONE_REQUEST, now);
  }

  function Untrimmed(to: string): Target {
    Target(to, Some(" a"), NoThread)
  }

  function Trimmed(to: string): Target {
    Target(to, Some("a"), NoThread)
  }

  lemma UntrimmedReadsTrimmed(to: string, now: int)
    requires CanonicalText(to)
    ensures NormalizeSubscriber(EncodeSubscription(Subscription(Untrimmed(to), Persistent, now)), now) ==
            Some(Subscription(Trimmed(to), Persistent, now))
  {
    assert Trim(" a") == "a" by {
      assert " a"[1..] == "a";
      assert TrimStart("a") == "a" && TrimEnd("a") == "a";
    }
    TrimmedFixpoint(to);
    SubscriptionFields(Subscription(Untrimmed(to), Persistent, now));
    TruncInteger(now);
    assert "once"[0] != "persistent"[0];
  }

  lemma TwoAccountsUpserted(to: string, now: int)
    ensures Upsert(Upsert([], Untrimmed(to), Persistent, now), Trimmed(to), Persistent, now) ==
            [Subscription(Untrimmed(to), Persistent, now), Subscription(Trimmed(to), Persistent, now)]
    ensures Key(Untrimmed(to)) != Key(Trimmed(to))
  {
  }

  lemma TrimmedReadsBack(to: string, now: int)
    requires CanonicalText(to)
    ensures NormalizeSubscriber(EncodeSubscription(Subscription(Trimmed(to), Persistent, now)), now) ==
            Some(Subscription(Trimmed(to), Persistent, now))
  {
    assert CanonicalTarget(Trimmed(to));
    SubscriptionRoundTrip(Subscription(Trimmed(to), Persistent, now), now);
  }

  /** Untrimmed accounts: two keys that differ in the written file are one key when it is read back. */
  lemma UntrimmedAccountsCollide(to: string, now: int)
    requires CanonicalText(to)
    ensures var subscribers := Upsert(Upsert([], Untrimmed(to), Persistent, now), Trimmed(to), Persistent, now);
            && DistinctKeys(subscribers)
            && !DistinctKeys(NormalizeSubscribers(EncodeSubscribers(subscribers), now))
  {
    var first, second := Subscription(Untrimmed(to), Persistent, now), Subscription(Trimmed(to), Persistent, now);
    TwoAccountsUpserted(to, now);
    UntrimmedReadsTrimmed(to, now);
    TrimmedReadsBack(to, now);
    ReadTwice(first, second, now);
    assert [second, second][0] == [second, second][1];
  }

  lemma ReadTwice(first: Subscription, second: Subscription, now: int)
    requires NormalizeSubscriber(EncodeSubscription(first), now) == Some(second)
    requires NormalizeSubscriber(EncodeSubscription(second), now) == Some(second)
    ensures NormalizeSubscribers(EncodeSubscribers([first, second]), now) == [second, second]
  {
  }
}
