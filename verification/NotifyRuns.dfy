/** Whole runs of the pairing notifier: serialised events, and interleaved reads and writes of the state file. */
module NotifyRuns {
  import opened Base
  import opened Text
  import opened NotifyState
  import opened PairNotify
  import opened NotifyDeliveries

  datatype Event =
    | PollTick(poll: Poll)
    | NotifyOn(target: Target, now: int)
    | ArmOnce(target: Target, now: int)
    | NotifyOff(target: Target)

  function Step(s: State, e: Event): State {
    match e
    case PollTick(poll) => Tick(s, poll)
    case NotifyOn(target, now) => s.(subscribers := Upsert(s.subscribers, target, Persistent, now))
    case ArmOnce(target, now) => s.(subscribers := Upsert(s.subscribers, target, Once, now))
    case NotifyOff(target) => s.(subscribers := RemoveKey(s.subscribers, Key(target)))
  }

  function Run(s: State, events: seq<Event>): State {
    if events == [] then s else Step(Run(s, events[..|events| - 1]), events[|events| - 1])
  }

  /** The state in which event number `k` of a run happens. */
  function Before(s: State, events: seq<Event>, k: nat): State
    requires k <= |events|
  {
    Run(s, events[..k])
  }

  lemma BeforeNext(s: State, events: seq<Event>, k: nat)
    requires k < |events|
    ensures Before(s, events, k + 1) == Step(Before(s, events, k), events[k])
  {
    assert events[..k + 1][..k] == events[..k];
  }

  // ---------------------------------------------------------------- what every event keeps

  ghost predicate DistinctKeys(subscribers: seq<Subscription>) {
    forall i, j | 0 <= i < j < |subscribers| :: Key(subscribers[i].target) != Key(subscribers[j].target)
  }

  ghost predicate Good(s: State) {
    Canonical(s) && DistinctKeys(s.subscribers)
  }

  /** The clock has started, request ids are not blank, and chat targets are trimmed. */
  predicate ValidEvent(e: Event) {
    match e
    case PollTick(poll) => poll.now > 0 && forall i | 0 <= i < |poll.pending| :: Trim(poll.pending[i].id) != ""
    case NotifyOn(target, now) => CanonicalTarget(target)
    case ArmOnce(target, now) => CanonicalTarget(target)
    case NotifyOff(target) => true
  }

  /** The event's own part in keeping the state good: what it writes is canonical, or it writes nothing. */
  ghost predicate KeepsGood(s: State, e: Event) {
    match e
    case PollTick(poll) => StampsAreCanonical(s, poll)
    case NotifyOn(target, now) => CanonicalTarget(target) || AlreadyThere(s.subscribers, target, Persistent)
    case ArmOnce(target, now) => CanonicalTarget(target) || AlreadyThere(s.subscribers, target, Once)
    case NotifyOff(target) => true
  }

  /** The chat has a subscription of the wanted mode. */
  predicate AlreadyThere(subscribers: seq<Subscription>, target: Target, mode: Mode) {
    exists i :: 0 <= i < |subscribers| && Key(subscribers[i].target) == Key(target) && subscribers[i].mode == mode
  }

  /** What the tick sends for is no blank id, and it sends nothing unremembered before the clock has started. */
  predicate StampsAreCanonical(s: State, poll: Poll) {
    forall i: nat | i < |poll.pending| && !Remembers(s, poll, poll.pending[i].id)
                    && SendsAny(s.subscribers, poll, i, |s.subscribers|) ::
      Trim(poll.pending[i].id) != "" && poll.now > 0
  }

  lemma UpsertUnchanged(subscribers: seq<Subscription>, target: Target, mode: Mode, now: int)
    requires DistinctKeys(subscribers)
    ensures Upsert(subscribers, target, mode, now) == subscribers <==> AlreadyThere(subscribers, target, mode)
  {
    var n := IndexOfKey(subscribers, Key(target));
    if i :| 0 <= i < |subscribers| && Key(subscribers[i].target) == Key(target) && subscribers[i].mode == mode {
      assert i == n;
    } else if n < |subscribers| {
      assert Upsert(subscribers, target, mode, now)[n].mode == mode;
    }
  }

  lemma UpsertKeepsKeys(subscribers: seq<Subscription>, target: Target, mode: Mode, now: int)
    requires DistinctKeys(subscribers)
    ensures DistinctKeys(Upsert(subscribers, target, mode, now))
  {
    var r := Upsert(subscribers, target, mode, now);
    var n := IndexOfKey(subscribers, Key(target));
    assert forall k | 0 <= k < |subscribers| :: Key(r[k].target) == Key(subscribers[k].target);
    forall i, j | 0 <= i < j < |r| ensures Key(r[i].target) != Key(r[j].target) {
      if j == |subscribers| {
        assert r[j].target == target && i < n;
      }
    }
  }

  /** Subscribing keeps a canonical list canonical exactly when the chat's target is canonical or nothing changes. */
  lemma UpsertIsCanonical(subscribers: seq<Subscription>, target: Target, mode: Mode, now: int)
    requires CanonicalSubscribers(subscribers)
    ensures CanonicalSubscribers(Upsert(subscribers, target, mode, now)) <==>
            CanonicalTarget(target) || Upsert(subscribers, target, mode, now) == subscribers
  {
    var r := Upsert(subscribers, target, mode, now);
    var n := IndexOfKey(subscribers, Key(target));
    if r != subscribers {
      assert r[n].target == target;
      assert forall k | 0 <= k < |r| && k != n :: r[k] == subscribers[k];
    }
  }

  /** Where entry `k` of a list stood before entry `n` was taken out. */
  function PlaceBefore(n: nat, k: nat): nat {
    if k < n then k else k + 1
  }

  lemma DroppedEntry<T>(s: seq<T>, n: nat, k: nat)
    requires n < |s| && k < |s| - 1
    ensures (s[..n] + s[n + 1..])[k] == s[PlaceBefore(n, k)]
  {
  }

  lemma RemovedEntries(subscribers: seq<Subscription>, key: string, k: nat)
    requires k < |RemoveKey(subscribers, key)|
    ensures var from := PlaceBefore(IndexOfKey(subscribers, key), k);
            from < |subscribers| && RemoveKey(subscribers, key)[k] == subscribers[from]
  {
    var n := IndexOfKey(subscribers, key);
    if n < |subscribers| {
      DroppedEntry(subscribers, n, k);
    }
  }

  lemma RemoveKeyKeepsKeys(subscribers: seq<Subscription>, key: string)
    requires DistinctKeys(subscribers)
    ensures DistinctKeys(RemoveKey(subscribers, key))
  {
    var r, n := RemoveKey(subscribers, key), IndexOfKey(subscribers, key);
    forall i, j | 0 <= i < j < |r| ensures Key(r[i].target) != Key(r[j].target) {
      RemovedEntries(subscribers, key, i);
      RemovedEntries(subscribers, key, j);
      assert PlaceBefore(n, i) < PlaceBefore(n, j);
    }
  }

  lemma RemoveKeyKeepsGood(subscribers: seq<Subscription>, key: string)
    requires DistinctKeys(subscribers) && CanonicalSubscribers(subscribers)
    ensures DistinctKeys(RemoveKey(subscribers, key)) && CanonicalSubscribers(RemoveKey(subscribers, key))
  {
    RemoveKeyKeepsKeys(subscribers, key);
    forall i | 0 <= i < |RemoveKey(subscribers, key)|
      ensures CanonicalTarget(RemoveKey(subscribers, key)[i].target)
    {
      RemovedEntries(subscribers, key, i);
    }
  }

  /** A filtered list: exactly the entries whose key is not dropped, in order. */
  lemma {:induction false} WithoutMembers(subscribers: seq<Subscription>, keys: set<string>, s: Subscription)
    ensures s in Without(subscribers, keys) <==> s in subscribers && Key(s.target) !in keys
  {
    if subscribers != [] {
      WithoutMembers(subscribers[..|subscribers| - 1], keys, s);
      assert s in subscribers <==> s in subscribers[..|subscribers| - 1] || s == subscribers[|subscribers| - 1];
    }
  }

  lemma DistinctKeysSnoc(subscribers: seq<Subscription>, last: Subscription)
    requires DistinctKeys(subscribers) && forall s | s in subscribers :: Key(s.target) != Key(last.target)
    ensures DistinctKeys(subscribers + [last])
  {
  }

  lemma WithoutKeepsApart(subscribers: seq<Subscription>, keys: set<string>, last: Subscription)
    requires forall s | s in subscribers :: Key(s.target) != Key(last.target)
    ensures forall s | s in Without(subscribers, keys) :: Key(s.target) != Key(last.target)
  {
    forall s | s in Without(subscribers, keys) ensures Key(s.target) != Key(last.target) {
      WithoutMembers(subscribers, keys, s);
    }
  }

  lemma {:induction false} WithoutKeepsGood(subscribers: seq<Subscription>, keys: set<string>)
    requires DistinctKeys(subscribers) && CanonicalSubscribers(subscribers)
    ensures DistinctKeys(Without(subscribers, keys)) && CanonicalSubscribers(Without(subscribers, keys))
  {
    if subscribers != [] {
      var init, last := subscribers[..|subscribers| - 1], subscribers[|subscribers| - 1];
      WithoutKeepsGood(init, keys);
      WithoutKeepsApart(init, keys, last);
      DistinctKeysSnoc(Without(init, keys), last);
    }
  }

  /** This tick delivers request number `i` to somebody. */
  predicate DeliversAny(s: State, poll: Poll, i: nat)
    requires i < |poll.pending|
  {
    !Seen(Remembered(s, poll, i), poll.pending[i].id) && SendsAny(s.subscribers, poll, i, |s.subscribers|)
  }

  /** The first `n` requests stamp no blank id, and stamp nothing before the clock has started. */
  ghost predicate FirstStampsAreCanonical(s: State, poll: Poll, n: nat)
    requires n <= |poll.pending|
  {
    forall i: nat | i < n :: StampIsCanonical(s, poll, i)
  }

  predicate StampIsCanonical(s: State, poll: Poll, i: nat)
    requires i < |poll.pending|
  {
    DeliversAny(s, poll, i) ==> Trim(poll.pending[i].id) != "" && poll.now > 0
  }

  lemma NextRemembered(s: State, poll: Poll, n: nat)
    requires n < |poll.pending|
    ensures Remembered(s, poll, n + 1) ==
            if DeliversAny(s, poll, n) then Remembered(s, poll, n)[poll.pending[n].id := poll.now]
            else Remembered(s, poll, n)
  {
  }

  lemma {:induction false} RememberedKeepsGood(s: State, poll: Poll, n: nat)
    requires CanonicalNotified(s.notified) && n <= |poll.pending| && FirstStampsAreCanonical(s, poll, n)
    ensures CanonicalNotified(Remembered(s, poll, n))
  {
    if n > 0 {
      RememberedKeepsGood(s, poll, n - 1);
      NextRemembered(s, poll, n - 1);
      assert StampIsCanonical(s, poll, n - 1);
      if DeliversAny(s, poll, n - 1) {
        StampKeepsCanonical(Remembered(s, poll, n - 1), poll.pending[n - 1].id, poll.now);
      }
    } else {
      PruneKeepsCanonical(s.notified, poll);
    }
  }

  /** What a tick remembers is canonical exactly when its stamps are. */
  lemma RememberedIsCanonical(s: State, poll: Poll, n: nat)
    requires CanonicalNotified(s.notified) && n <= |poll.pending|
    ensures CanonicalNotified(Remembered(s, poll, n)) <==> FirstStampsAreCanonical(s, poll, n)
  {
    if FirstStampsAreCanonical(s, poll, n) {
      RememberedKeepsGood(s, poll, n);
    } else {
      var i: nat :| i < n && !StampIsCanonical(s, poll, i);
      NextRemembered(s, poll, i);
      StampStays(s, poll, i + 1, n, poll.pending[i].id);
    }
  }

  lemma DeliversAnyId(s: State, poll: Poll, i: nat)
    requires i < |poll.pending|
    ensures DeliversAny(s, poll, i) ==> DeliversId(s, poll, poll.pending[i].id)
  {
    if DeliversAny(s, poll, i) {
      var j: nat :| j < |s.subscribers| && Sends(s.subscribers, poll, i, j);
      assert Delivers(s, poll, i, j);
    }
  }

  lemma IdDeliversAny(s: State, poll: Poll, id: string) returns (i: nat)
    requires DeliversId(s, poll, id)
    ensures i < |poll.pending| && poll.pending[i].id == id && DeliversAny(s, poll, i)
  {
    var k: nat, j: nat :| k < |poll.pending| && poll.pending[k].id == id && Delivers(s, poll, k, j);
    i := k;
  }

  /** Which stamps a tick makes can be told from the state it starts from. */
  lemma StampsForeseen(s: State, poll: Poll)
    ensures FirstStampsAreCanonical(s, poll, |poll.pending|) <==> StampsAreCanonical(s, poll)
  {
    forall i: nat | i < |poll.pending|
      ensures StampsAreCanonical(s, poll) ==> StampIsCanonical(s, poll, i)
      ensures FirstStampsAreCanonical(s, poll, |poll.pending|) ==>
                !Remembers(s, poll, poll.pending[i].id) && SendsAny(s.subscribers, poll, i, |s.subscribers|) ==>
                  Trim(poll.pending[i].id) != "" && poll.now > 0
    {
      var id := poll.pending[i].id;
      DeliversExactly(s, poll, id);
      DeliversAnyId(s, poll, i);
      if !Remembers(s, poll, id) && SendsAny(s.subscribers, poll, i, |s.subscribers|) {
        assert SentFor(s, poll, i, id);
        var k := IdDeliversAny(s, poll, id);
        assert FirstStampsAreCanonical(s, poll, |poll.pending|) ==> StampIsCanonical(s, poll, k);
      }
    }
  }

  lemma StampKeepsCanonical(notified: map<string, int>, id: string, now: int)
    requires CanonicalNotified(notified) && Trim(id) != "" && now > 0
    ensures CanonicalNotified(notified[id := now])
  {
  }

  lemma PruneKeepsCanonical(notified: map<string, int>, poll: Poll)
    requires CanonicalNotified(notified)
    ensures CanonicalNotified(Prune(notified, poll))
  {
  }

  lemma {:induction false} RememberedArePending(s: State, poll: Poll, n: nat)
    requires n <= |poll.pending|
    ensures Remembered(s, poll, n).Keys <= PendingIds(poll.pending)
  {
    if n > 0 {
      RememberedArePending(s, poll, n - 1);
      RememberedStep(s, poll, n - 1);
      assert poll.pending[n - 1].id in PendingIds(poll.pending);
    }
  }

  lemma TickKeepsGood(s: State, poll: Poll)
    requires Good(s)
    ensures Good(Tick(s, poll)) <==> StampsAreCanonical(s, poll)
  {
    WithoutKeepsGood(s.subscribers, ServedOnce(s, poll, |poll.pending|));
    RememberedIsCanonical(s, poll, |poll.pending|);
    StampsForeseen(s, poll);
  }

  lemma UpsertKeepsGood(s: State, target: Target, mode: Mode, now: int)
    requires Good(s)
    ensures Good(s.(subscribers := Upsert(s.subscribers, target, mode, now))) <==>
            CanonicalTarget(target) || AlreadyThere(s.subscribers, target, mode)
  {
    UpsertKeepsKeys(s.subscribers, target, mode, now);
    UpsertIsCanonical(s.subscribers, target, mode, now);
    UpsertUnchanged(s.subscribers, target, mode, now);
  }

  /** A tick or command keeps a good state good exactly when what it writes is canonical. */
  lemma StepKeepsGood(s: State, e: Event)
    requires Good(s)
    ensures Good(Step(s, e)) <==> KeepsGood(s, e)
    ensures ValidEvent(e) ==> KeepsGood(s, e)
  {
    match e
    case PollTick(poll) => TickKeepsGood(s, poll);
    case NotifyOn(target, now) => UpsertKeepsGood(s, target, Persistent, now);
    case ArmOnce(target, now) => UpsertKeepsGood(s, target, Once, now);
    case NotifyOff(target) => RemoveKeyKeepsGood(s.subscribers, Key(target));
  }

  ghost predicate ValidEvents(events: seq<Event>) {
    forall e | e in events :: ValidEvent(e)
  }

  lemma {:induction false} RunKeepsGood(s: State, events: seq<Event>)
    requires Good(s) && ValidEvents(events)
    ensures Good(Run(s, events))
  {
    if events != [] {
      RunKeepsGood(s, events[..|events| - 1]);
      StepKeepsGood(Run(s, events[..|events| - 1]), events[|events| - 1]);
    }
  }

  lemma {:induction false} GoodUpTo(s: State, events: seq<Event>, k: nat)
    requires Good(s) && k <= |events| && forall m: nat | m < k :: KeepsGood(Before(s, events, m), events[m])
    ensures Good(Before(s, events, k))
  {
    if k > 0 {
      GoodUpTo(s, events, k - 1);
      BeforeNext(s, events, k - 1);
      StepKeepsGood(Before(s, events, k - 1), events[k - 1]);
    }
  }

  /** A run passes through good states only, exactly when every event keeps the state it finds good. */
  lemma RunStaysGood(s: State, events: seq<Event>)
    requires Good(s)
    ensures (forall k: nat | k <= |events| :: Good(Before(s, events, k))) <==>
            (forall k: nat | k < |events| :: KeepsGood(Before(s, events, k), events[k]))
  {
    if forall k: nat | k <= |events| :: Good(Before(s, events, k)) {
      forall k: nat | k < |events| ensures KeepsGood(Before(s, events, k), events[k]) {
        BeforeNext(s, events, k);
        StepKeepsGood(Before(s, events, k), events[k]);
      }
    }
    if forall k: nat | k < |events| :: KeepsGood(Before(s, events, k), events[k]) {
      forall k: nat | k <= |events| ensures Good(Before(s, events, k)) {
        GoodUpTo(s, events, k);
      }
    }
  }

  /** After a tick, every remembered id is pending. */
  lemma TickRemembersPending(s: State, poll: Poll)
    ensures Tick(s, poll).notified.Keys <= PendingIds(poll.pending)
  {
    RememberedArePending(s, poll, |poll.pending|);
  }

  // ---------------------------------------------------------------- interleaved readers and writers

  /** The state file (None: absent) and the snapshots that readers currently hold. */
  datatype World = World(file: Option<Json>, snapshots: map<nat, State>)

  /** A reader takes a snapshot (empty when the file cannot be parsed); later it applies one event and writes back. */
  datatype Action =
    | Read(reader: nat, unreadable: bool, now: int)
    | Apply(reader: nat, event: Event)

  function ReadFile(file: Option<Json>, now: int): State {
    if file.None? then EMPTY_STATE else Normalize(file.value, now)
  }

  function Act(w: World, a: Action): World {
    match a
    case Read(reader, unreadable, now) =>
      w.(snapshots := w.snapshots[reader := if unreadable then EMPTY_STATE else ReadFile(w.file, now)])
    case Apply(reader, event) =>
      if reader !in w.snapshots then w
      else
        var before := w.snapshots[reader];
        var after := Step(before, event);
        World(if after == before then w.file else Some(Encode(after)), w.snapshots - {reader})
  }

  function ActAll(w: World, actions: seq<Action>): World {
    if actions == [] then w else Act(ActAll(w, actions[..|actions| - 1]), actions[|actions| - 1])
  }

  /** The file is absent or holds a good state that every read returns unchanged. */
  ghost predicate GoodFile(file: Option<Json>) {
    file.Some? ==>
      forall now: int :: Good(Normalize(file.value, now)) && file.value == Encode(Normalize(file.value, now))
  }

  ghost predicate GoodWorld(w: World) {
    GoodFile(w.file) && forall r | r in w.snapshots :: Good(w.snapshots[r])
  }

  /** The file a state is written to is good exactly when the state is. */
  lemma EncodedIsGood(s: State)
    ensures GoodFile(Some(Encode(s))) <==> Good(s)
  {
    if Good(s) {
      forall now: int ensures Normalize(Encode(s), now) == s {
        StateRoundTrip(s, now);
      }
    } else if GoodFile(Some(Encode(s))) {
      EncodeIsInjective(s, Normalize(Encode(s), 0));
    }
  }

  ghost predicate ValidActions(actions: seq<Action>) {
    forall a | a in actions && a.Apply? :: ValidEvent(a.event)
  }

  /** An event that is applied keeps the snapshot it is applied to good. */
  ghost predicate HeldKeepsGood(w: World, a: Action) {
    a.Apply? && a.reader in w.snapshots ==> KeepsGood(w.snapshots[a.reader], a.event)
  }

  /** Stale snapshot or not, an action keeps the world good exactly when its event keeps the snapshot good. */
  lemma ActKeepsGood(w: World, a: Action)
    requires GoodWorld(w)
    ensures GoodWorld(Act(w, a)) <==> HeldKeepsGood(w, a)
    ensures a.Apply? && ValidEvent(a.event) ==> GoodWorld(Act(w, a))
  {
    match a
    case Read(reader, unreadable, now) =>
      assert Good(EMPTY_STATE);
      assert Good(ReadFile(w.file, now));
    case Apply(reader, event) =>
      if reader in w.snapshots {
        StepKeepsGood(w.snapshots[reader], event);
        EncodedIsGood(Step(w.snapshots[reader], event));
      }
  }

  /** The world in which action number `k` happens. */
  function WorldBefore(w: World, actions: seq<Action>, k: nat): World
    requires k <= |actions|
  {
    ActAll(w, actions[..k])
  }

  lemma WorldBeforeNext(w: World, actions: seq<Action>, k: nat)
    requires k < |actions|
    ensures WorldBefore(w, actions, k + 1) == Act(WorldBefore(w, actions, k), actions[k])
  {
    assert actions[..k + 1][..k] == actions[..k];
  }

  lemma {:induction false} WorldGoodUpTo(w: World, actions: seq<Action>, k: nat)
    requires GoodWorld(w) && k <= |actions|
    requires forall m: nat | m < k :: HeldKeepsGood(WorldBefore(w, actions, m), actions[m])
    ensures GoodWorld(WorldBefore(w, actions, k))
  {
    if k > 0 {
      WorldGoodUpTo(w, actions, k - 1);
      WorldBeforeNext(w, actions, k - 1);
      ActKeepsGood(WorldBefore(w, actions, k - 1), actions[k - 1]);
    }
  }

  /** However actions interleave, all worlds are good exactly when every applied event keeps its snapshot good. */
  lemma InterleavingStaysGood(w: World, actions: seq<Action>)
    requires GoodWorld(w)
    ensures (forall k: nat | k <= |actions| :: GoodWorld(WorldBefore(w, actions, k))) <==>
            (forall k: nat | k < |actions| :: HeldKeepsGood(WorldBefore(w, actions, k), actions[k]))
  {
    if forall k: nat | k <= |actions| :: GoodWorld(WorldBefore(w, actions, k)) {
      forall k: nat | k < |actions| ensures HeldKeepsGood(WorldBefore(w, actions, k), actions[k]) {
        WorldBeforeNext(w, actions, k);
        ActKeepsGood(WorldBefore(w, actions, k), actions[k]);
      }
    }
    if forall k: nat | k < |actions| :: HeldKeepsGood(WorldBefore(w, actions, k), actions[k]) {
      forall k: nat | k <= |actions| ensures GoodWorld(WorldBefore(w, actions, k)) {
        WorldGoodUpTo(w, actions, k);
      }
    }
  }

  /**
   * However polls and commands interleave, and however stale their snapshots are, every state file
   * written has pairwise distinct keys and is read back unchanged.
   */
  lemma {:induction false} InterleavedFilesAreGood(w: World, actions: seq<Action>)
    requires GoodWorld(w) && ValidActions(actions)
    ensures GoodWorld(ActAll(w, actions))
  {
    if actions != [] {
      InterleavedFilesAreGood(w, actions[..|actions| - 1]);
      ActKeepsGood(ActAll(w, actions[..|actions| - 1]), actions[|actions| - 1]);
    }
  }

  /** When nothing interleaves, the file always holds the state of the plain run. */
  function Serialised(events: seq<Event>, now: int): seq<Action> {
    if events == [] then []
    else Serialised(events[..|events| - 1], now) + [Read(0, false, now), Apply(0, events[|events| - 1])]
  }

  lemma ActAllSnoc(w: World, prefix: seq<Action>, a: Action)
    ensures ActAll(w, prefix + [a]) == Act(ActAll(w, prefix), a)
  {
  }

  /** Reading and then applying an event, with nothing in between, advances the file by that event. */
  lemma UninterruptedEvent(w: World, e: Event, now: int)
    requires GoodWorld(w) && w.snapshots == map[] && ValidEvent(e)
    ensures var v := Act(Act(w, Read(0, false, now)), Apply(0, e));
            GoodWorld(v) && v.snapshots == map[] && ReadFile(v.file, now) == Step(ReadFile(w.file, now), e)
  {
    var read := Act(w, Read(0, false, now));
    ActKeepsGood(w, Read(0, false, now));
    ActKeepsGood(read, Apply(0, e));
    StepKeepsGood(read.snapshots[0], e);
    StateRoundTrip(Step(read.snapshots[0], e), now);
  }

  lemma {:induction false} SerialisedRunRefines(w: World, events: seq<Event>, now: int)
    requires GoodWorld(w) && w.snapshots == map[] && ValidEvents(events)
    ensures var v := ActAll(w, Serialised(events, now));
            GoodWorld(v) && v.snapshots == map[] && ReadFile(v.file, now) == Run(ReadFile(w.file, now), events)
  {
    if events != [] {
      var init, last := events[..|events| - 1], events[|events| - 1];
      SerialisedRunRefines(w, init, now);
      var prefix := Serialised(init, now);
      var read, apply := Read(0, false, now), Apply(0, last);
      ActAllSnoc(w, prefix, read);
      ActAllSnoc(w, prefix + [read], apply);
      assert Serialised(events, now) == prefix + [read] + [apply];
      UninterruptedEvent(ActAll(w, prefix), last, now);
    }
  }
}
