/** Which events the state file of the pairing notifier still shows when reads and writes interleave. */
module NotifyHistory {
  import opened Base
  import opened Text
  import opened NotifyState
  import opened PairNotify
  import opened NotifyRuns
  import opened NotifySafety

  /** An applied event, with the number of the action that applied it. */
  datatype Entry = Entry(at: nat, event: Event)

  /** How a state came about: from the file of the start, or from nothing after an unreadable file, by these events. */
  datatype History = History(fromNothing: bool, entries: seq<Entry>)

  datatype Histories = Histories(file: History, snapshots: map<nat, History>)

  /** The action changes the state it is applied to, so the file is written. */
  predicate Writes(w: World, a: Action) {
    a.Apply? && a.reader in w.snapshots && Step(w.snapshots[a.reader], a.event) != w.snapshots[a.reader]
  }

  /** One more action, number `at`, in world `w`. */
  function Record(h: Histories, w: World, at: nat, a: Action): Histories {
    match a
    case Read(reader, unreadable, _) =>
      h.(snapshots := h.snapshots[reader := if unreadable then History(true, []) else h.file])
    case Apply(reader, event) =>
      if reader !in h.snapshots then h
      else
        var before := h.snapshots[reader];
        Histories(if Writes(w, a) then before.(entries := before.entries + [Entry(at, event)]) else h.file,
                  h.snapshots - {reader})
  }

  /** The histories once the first `k` actions have happened. */
  function HistoriesBefore(w: World, actions: seq<Action>, k: nat): Histories
    requires k <= |actions|
  {
    if k == 0 then Histories(History(false, []), map[])
    else Record(HistoriesBefore(w, actions, k - 1), WorldBefore(w, actions, k - 1), k - 1, actions[k - 1])
  }

  // ---------------------------------------------------------------- histories explain states

  function EventsOf(entries: seq<Entry>): (r: seq<Event>)
    ensures |r| == |entries| && forall i | 0 <= i < |r| :: r[i] == entries[i].event
  {
    seq(|entries|, i requires 0 <= i < |entries| => entries[i].event)
  }

  /** The state a history leads to. */
  function Explained(start: State, h: History): State {
    Run(if h.fromNothing then EMPTY_STATE else start, EventsOf(h.entries))
  }

  lemma ExplainedNext(start: State, h: History, entry: Entry)
    ensures Explained(start, h.(entries := h.entries + [entry])) == Step(Explained(start, h), entry.event)
  {
    var events := EventsOf(h.entries + [entry]);
    assert events[..|events| - 1] == EventsOf(h.entries);
  }

  /** A good file is read alike at all times. */
  lemma SameReading(file: Option<Json>, now: int, later: int)
    requires GoodFile(file)
    ensures ReadFile(file, now) == ReadFile(file, later)
  {
    if file.Some? {
      EncodeIsInjective(Normalize(file.value, now), Normalize(file.value, later));
    }
  }

  /** The histories fit the world: they explain the file and every snapshot. */
  ghost predicate Explains(start: State, h: Histories, w: World, now: int) {
    && ReadFile(w.file, now) == Explained(start, h.file)
    && h.snapshots.Keys == w.snapshots.Keys
    && forall r | r in w.snapshots :: w.snapshots[r] == Explained(start, h.snapshots[r])
  }

  lemma ReadIsExplained(start: State, h: Histories, w: World, at: nat, a: Action, now: int)
    requires GoodWorld(w) && Explains(start, h, w, now) && a.Read?
    ensures Explains(start, Record(h, w, at, a), Act(w, a), now)
  {
    SameReading(w.file, a.now, now);
    assert Explained(start, History(true, [])) == EMPTY_STATE by {
      assert EventsOf([]) == [];
    }
  }

  lemma ApplyIsExplained(start: State, h: Histories, w: World, at: nat, a: Action, now: int)
    requires GoodWorld(w) && Explains(start, h, w, now) && a.Apply? && ValidEvent(a.event)
    ensures Explains(start, Record(h, w, at, a), Act(w, a), now)
  {
    if a.reader in w.snapshots {
      var before := w.snapshots[a.reader];
      StepKeepsGood(before, a.event);
      StateRoundTrip(Step(before, a.event), now);
      ExplainedNext(start, h.snapshots[a.reader], Entry(at, a.event));
    }
  }

  lemma {:induction false} PrefixIsGood(w: World, actions: seq<Action>, k: nat)
    requires GoodWorld(w) && ValidActions(actions) && k <= |actions|
    ensures GoodWorld(WorldBefore(w, actions, k))
  {
    InterleavedFilesAreGood(w, actions[..k]);
  }

  /**
   * However polls and commands interleave, the file holds what its history says: the result of these
   * events alone, one after the other, and the same is true of every snapshot.
   */
  lemma {:induction false} HistoryExplains(w: World, actions: seq<Action>, k: nat, now: int)
    requires GoodWorld(w) && w.snapshots == map[] && ValidActions(actions) && k <= |actions|
    ensures Explains(ReadFile(w.file, now), HistoriesBefore(w, actions, k), WorldBefore(w, actions, k), now)
  {
    var start := ReadFile(w.file, now);
    if k == 0 {
      assert EventsOf([]) == [] && actions[..0] == [];
    } else {
      var v, h := WorldBefore(w, actions, k - 1), HistoriesBefore(w, actions, k - 1);
      HistoryExplains(w, actions, k - 1, now);
      PrefixIsGood(w, actions, k - 1);
      WorldBeforeNext(w, actions, k - 1);
      assert actions[k - 1] in actions;
      if actions[k - 1].Read? {
        ReadIsExplained(start, h, v, k - 1, actions[k - 1], now);
      } else {
        ApplyIsExplained(start, h, v, k - 1, actions[k - 1], now);
      }
    }
  }

  // ---------------------------------------------------------------- what survives

  /** The effect of action number `k` is part of this history. */
  predicate Survives(h: History, k: nat) {
    exists i :: 0 <= i < |h.entries| && h.entries[i].at == k
  }

  lemma SurvivesNext(h: History, entry: Entry, k: nat)
    ensures Survives(h.(entries := h.entries + [entry]), k) <==> Survives(h, k) || entry.at == k
  {
    var all := h.entries + [entry];
    assert all[|h.entries|] == entry && forall i | 0 <= i < |h.entries| :: all[i] == h.entries[i];
    if Survives(h, k) {
      var i :| 0 <= i < |h.entries| && h.entries[i].at == k;
      assert all[i].at == k;
    }
  }

  /** The history a read takes over. */
  function TakenOver(h: Histories, a: Action): History
    requires a.Read?
  {
    if a.unreadable then History(true, []) else h.file
  }

  lemma {:induction false} SameReaders(w: World, actions: seq<Action>, k: nat)
    requires w.snapshots == map[] && k <= |actions|
    ensures HistoriesBefore(w, actions, k).snapshots.Keys == WorldBefore(w, actions, k).snapshots.Keys
  {
    if k == 0 {
      assert actions[..0] == [];
    } else {
      SameReaders(w, actions, k - 1);
      WorldBeforeNext(w, actions, k - 1);
    }
  }

  /** A reader's history stays what its last read took over. */
  lemma {:induction false} HeldHistory(w: World, actions: seq<Action>, c: nat, k: nat)
    requires c < k <= |actions| && actions[c].Read? && forall m | c < m < k :: actions[m].reader != actions[c].reader
    ensures var reader, h := actions[c].reader, HistoriesBefore(w, actions, k);
            reader in h.snapshots && h.snapshots[reader] == TakenOver(HistoriesBefore(w, actions, c), actions[c])
  {
    if k > c + 1 {
      HeldHistory(w, actions, c, k - 1);
      assert actions[k - 1].reader != actions[c].reader;
    }
  }

  /** Action number `m` writes the file. */
  predicate WritesAt(w: World, actions: seq<Action>, m: nat)
    requires m < |actions|
  {
    Writes(WorldBefore(w, actions, m), actions[m])
  }

  lemma WrittenHistory(w: World, actions: seq<Action>, c: nat, m: nat)
    requires w.snapshots == map[] && c < m < |actions| && WritesAt(w, actions, m)
    requires actions[c].Read? && actions[c].reader == actions[m].reader
    requires forall x | c < x < m :: actions[x].reader != actions[m].reader
    ensures var h := TakenOver(HistoriesBefore(w, actions, c), actions[c]);
            HistoriesBefore(w, actions, m + 1).file == h.(entries := h.entries + [Entry(m, actions[m].event)])
  {
    HeldHistory(w, actions, c, m);
  }

  /**
   * Whether the effect of action `k` survives a later write `m` is decided by what the writer read: it
   * survives exactly when it was in the file, readable, at that moment.
   */
  lemma SurvivesExactly(w: World, actions: seq<Action>, k: nat, m: nat) returns (c: nat)
    requires w.snapshots == map[] && k < m < |actions| && WritesAt(w, actions, m)
    ensures c < m && actions[c].Read? && actions[c].reader == actions[m].reader
    ensures forall x | c < x < m :: actions[x].reader != actions[m].reader
    ensures Survives(HistoriesBefore(w, actions, m + 1).file, k) <==>
            !actions[c].unreadable && Survives(HistoriesBefore(w, actions, c).file, k)
  {
    c := SnapshotBefore(w, actions, m, actions[m].reader);
    WrittenHistory(w, actions, c, m);
    var h := TakenOver(HistoriesBefore(w, actions, c), actions[c]);
    SurvivesNext(h, Entry(m, actions[m].event), k);
  }

  ghost predicate OnlyEarlier(h: History, k: nat) {
    forall i | 0 <= i < |h.entries| :: h.entries[i].at < k
  }

  lemma RecordIsEarlier(h: Histories, w: World, at: nat, a: Action)
    requires OnlyEarlier(h.file, at) && forall r | r in h.snapshots :: OnlyEarlier(h.snapshots[r], at)
    ensures var after := Record(h, w, at, a);
            && OnlyEarlier(after.file, at + 1)
            && forall r | r in after.snapshots :: OnlyEarlier(after.snapshots[r], at + 1)
  {
  }

  lemma {:induction false} HistoriesAreEarlier(w: World, actions: seq<Action>, k: nat)
    requires k <= |actions|
    ensures OnlyEarlier(HistoriesBefore(w, actions, k).file, k)
    ensures forall r | r in HistoriesBefore(w, actions, k).snapshots ::
              OnlyEarlier(HistoriesBefore(w, actions, k).snapshots[r], k)
  {
    if k > 0 {
      HistoriesAreEarlier(w, actions, k - 1);
      RecordIsEarlier(HistoriesBefore(w, actions, k - 1), WorldBefore(w, actions, k - 1), k - 1, actions[k - 1]);
    }
  }

  /** Between two writes the file's history does not change. */
  lemma {:induction false} FileStays(w: World, actions: seq<Action>, first: nat, last: nat)
    requires w.snapshots == map[] && first <= last <= |actions|
    requires forall x | first <= x < last :: !WritesAt(w, actions, x)
    ensures HistoriesBefore(w, actions, last).file == HistoriesBefore(w, actions, first).file
    decreases last
  {
    if first < last {
      FileStays(w, actions, first, last - 1);
      assert !WritesAt(w, actions, last - 1);
    }
  }

  /** A write is part of the history it writes. */
  lemma WriteIsRecorded(w: World, actions: seq<Action>, k: nat)
    requires w.snapshots == map[] && k < |actions| && WritesAt(w, actions, k)
    ensures Survives(HistoriesBefore(w, actions, k + 1).file, k)
  {
    SameReaders(w, actions, k);
    SurvivesNext(HistoriesBefore(w, actions, k).snapshots[actions[k].reader], Entry(k, actions[k].event), k);
  }

  /**
   * The next write after a write: the first one's effect survives it exactly when the second writer
   * read after the first had written, and could read.
   */
  lemma NextWriteDecides(w: World, actions: seq<Action>, k: nat, m: nat) returns (c: nat)
    requires w.snapshots == map[] && k < m < |actions| && WritesAt(w, actions, k) && WritesAt(w, actions, m)
    requires forall x | k < x < m :: !WritesAt(w, actions, x)
    ensures c < m && actions[c].Read? && actions[c].reader == actions[m].reader
    ensures forall x | c < x < m :: actions[x].reader != actions[m].reader
    ensures Survives(HistoriesBefore(w, actions, m + 1).file, k) <==> k < c && !actions[c].unreadable
  {
    c := SurvivesExactly(w, actions, k, m);
    if k < c {
      WriteIsRecorded(w, actions, k);
      FileStays(w, actions, k + 1, c);
    } else {
      HistoriesAreEarlier(w, actions, c);
    }
  }

  // ---------------------------------------------------------------- a subscription that is lost

  ghost predicate HasPersistent(s: State, key: string) {
    exists sub :: sub in s.subscribers && Key(sub.target) == key && sub.mode == Persistent
  }

  lemma OnSubscribes(s: State, target: Target, now: int)
    ensures HasPersistent(Step(s, NotifyOn(target, now)), Key(target))
  {
    var n, next := IndexOfKey(s.subscribers, Key(target)), Subscription(target, Persistent, now);
    var after := Step(s, NotifyOn(target, now)).subscribers;
    assert after[n] == next || (after[n] == s.subscribers[n] && after[n].mode == Persistent);
    assert after[n] in after;
  }

  /** A tick neither makes nor removes persistent subscriptions. */
  lemma TickKeepsPersistent(s: State, poll: Poll, key: string)
    requires Good(s)
    ensures HasPersistent(Tick(s, poll), key) <==> HasPersistent(s, key)
  {
    if HasPersistent(Tick(s, poll), key) {
      var sub :| sub in Tick(s, poll).subscribers && Key(sub.target) == key && sub.mode == Persistent;
      TickAddsNone(s, poll, sub);
    }
    if HasPersistent(s, key) {
      var sub :| sub in s.subscribers && Key(sub.target) == key && sub.mode == Persistent;
      var j :| 0 <= j < |s.subscribers| && s.subscribers[j] == sub;
      TickRemovesServed(s, poll, j);
    }
  }

  lemma WrittenState(w: World, actions: seq<Action>, m: nat, now: int)
    requires GoodWorld(w) && ValidActions(actions) && m < |actions| && WritesAt(w, actions, m)
    ensures var v := WorldBefore(w, actions, m);
            ReadFile(WorldBefore(w, actions, m + 1).file, now) == Step(v.snapshots[actions[m].reader], actions[m].event)
    ensures Good(WorldBefore(w, actions, m).snapshots[actions[m].reader])
  {
    var before := WorldBefore(w, actions, m).snapshots[actions[m].reader];
    PrefixIsGood(w, actions, m);
    WorldBeforeNext(w, actions, m);
    assert actions[m] in actions;
    StepKeepsGood(before, actions[m].event);
    StateRoundTrip(Step(before, actions[m].event), now);
  }

  lemma {:induction false} FileUntouched(w: World, actions: seq<Action>, first: nat, last: nat)
    requires first <= last <= |actions| && forall x | first <= x < last :: !WritesAt(w, actions, x)
    ensures WorldBefore(w, actions, last).file == WorldBefore(w, actions, first).file
    decreases last
  {
    if first < last {
      FileUntouched(w, actions, first, last - 1);
      WorldBeforeNext(w, actions, last - 1);
      assert !WritesAt(w, actions, last - 1);
    }
  }

  /** What a read at action `c`, after the chat subscribed at action `k` and before the next write, finds. */
  lemma ReadAfterSubscribing(w: World, actions: seq<Action>, k: nat, c: nat, target: Target, now: int)
    requires GoodWorld(w) && ValidActions(actions) && k < c < |actions| && WritesAt(w, actions, k)
    requires actions[k].Apply? && actions[k].event == NotifyOn(target, now)
    requires actions[c].Read? && !actions[c].unreadable && forall x | k < x < c :: !WritesAt(w, actions, x)
    ensures HasPersistent(ReadAt(WorldBefore(w, actions, c), actions[c]), Key(target))
  {
    FileUntouched(w, actions, k + 1, c);
    WrittenState(w, actions, k, actions[c].now);
    OnSubscribes(WorldBefore(w, actions, k).snapshots[actions[k].reader], target, now);
  }

  /**
   * A chat that had no persistent subscription subscribes, and the next write is a poll's: the chat is
   * still subscribed afterwards exactly when the poll read, and could read, after the chat had subscribed.
   */
  lemma SubscriptionSurvivesExactly(w: World, actions: seq<Action>, k: nat, m: nat, target: Target, at: int, now: int)
    returns (c: nat)
    requires GoodWorld(w) && w.snapshots == map[] && ValidActions(actions) && k < m < |actions|
    requires WritesAt(w, actions, k) && WritesAt(w, actions, m) && forall x | k < x < m :: !WritesAt(w, actions, x)
    requires actions[k].event == NotifyOn(target, at) && actions[m].event.PollTick?
    requires forall x: nat, t: int | x <= k :: !HasPersistent(ReadFile(WorldBefore(w, actions, x).file, t), Key(target))
    ensures c < m && actions[c].Read? && actions[c].reader == actions[m].reader
    ensures forall x | c < x < m :: actions[x].reader != actions[m].reader
    ensures HasPersistent(ReadFile(WorldBefore(w, actions, m + 1).file, now), Key(target)) <==>
            k < c && !actions[c].unreadable
  {
    c := SnapshotBefore(w, actions, m, actions[m].reader);
    var seen := ReadAt(WorldBefore(w, actions, c), actions[c]);
    WrittenState(w, actions, m, now);
    TickKeepsPersistent(seen, actions[m].event.poll, Key(target));
    if k < c && !actions[c].unreadable {
      ReadAfterSubscribing(w, actions, k, c, target, at);
    }
  }

  const NEW_CHAT := Target("c", None, NoThread)
  const OLD_MEMORY := State([], map["r" := 1])
  const EMPTY_POLL := Poll(2, [], {})

  lemma OldMemoryIsGood()
    ensures Good(OLD_MEMORY)
  {
    TrimmedFixpoint("r");
  }

  lemma EmptyPollForgets()
    ensures Tick(OLD_MEMORY, EMPTY_POLL) == EMPTY_STATE
  {
    assert Prune(map["r" := 1], EMPTY_POLL) == map[];
  }

  lemma OldMemorySubscribes(now: int)
    ensures Step(OLD_MEMORY, NotifyOn(NEW_CHAT, now)) ==
            State([Subscription(NEW_CHAT, Persistent, now)], map["r" := 1])
    ensures Good(Step(OLD_MEMORY, NotifyOn(NEW_CHAT, now)))
  {
    OldMemoryIsGood();
    TrimmedFixpoint("c");
    StepKeepsGood(OLD_MEMORY, NotifyOn(NEW_CHAT, now));
  }

  /** A poll reads, a chat subscribes, and the poll is about to write. */
  function PollHoldsOld(now: int): World {
    var w := World(Some(Encode(OLD_MEMORY)), map[]);
    Act(Act(Act(w, Read(0, false, now)), Read(1, false, now)), Apply(1, NotifyOn(NEW_CHAT, now)))
  }

  lemma PollHolds(now: int)
    ensures var v := PollHoldsOld(now);
            && v.file == Some(Encode(Step(OLD_MEMORY, NotifyOn(NEW_CHAT, now))))
            && v.snapshots == map[0 := OLD_MEMORY]
  {
    var w := World(Some(Encode(OLD_MEMORY)), map[]);
    OldMemoryIsGood();
    StateRoundTrip(OLD_MEMORY, now);
    OldMemorySubscribes(now);
    var read := Act(Act(w, Read(0, false, now)), Read(1, false, now));
    assert read.snapshots[0] == OLD_MEMORY && read.snapshots[1] == OLD_MEMORY;
    assert |Step(OLD_MEMORY, NotifyOn(NEW_CHAT, now)).subscribers| != |OLD_MEMORY.subscribers|;
  }

  /** The poll writes what it forgets, and the subscription is gone. */
  lemma SubscriptionIsLost(now: int)
    ensures |ReadFile(PollHoldsOld(now).file, now).subscribers| == 1
    ensures ReadFile(Act(PollHoldsOld(now), Apply(0, PollTick(EMPTY_POLL))).file, now).subscribers == []
  {
    PollHolds(now);
    OldMemorySubscribes(now);
    StateRoundTrip(Step(OLD_MEMORY, NotifyOn(NEW_CHAT, now)), now);
    EmptyPollForgets();
    StateRoundTrip(EMPTY_STATE, now);
    assert "r" in OLD_MEMORY.notified && "r" !in EMPTY_STATE.notified;
  }
}
