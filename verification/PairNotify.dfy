/** The poll tick and the chat commands of extensions/device-pair/notify.ts. */
module PairNotify {
  import opened Base
  import opened NotifyState

  const NOTIFY_MAX_SEEN_AGE_MS := 24 * 60 * 60 * 1000

  /** A pending pairing request; `ts` is absent when it is missing or not a finite number. */
  datatype Request = Request(id: string, ts: Option<real>)

  /** The inputs of one poll: the clock, the pending list, and the sends (request, subscriber) that succeed. */
  datatype Poll = Poll(now: int, pending: seq<Request>, sends: set<(nat, nat)>)

  function PendingIds(pending: seq<Request>): set<string> {
    set i | 0 <= i < |pending| :: pending[i].id
  }

  function RequestTimestamp(request: Request): Option<int> {
    if request.ts.Some? && Trunc(request.ts.value) > 0 then Some(Trunc(request.ts.value)) else None
  }

  predicate ShouldNotify(subscriber: Subscription, request: Request) {
    subscriber.mode != Once ||
    (RequestTimestamp(request).Some? && RequestTimestamp(request).value >= subscriber.addedAtMs)
  }

  // ---------------------------------------------------------------- the tick as a function

  /** Forgets the ids that are no longer pending or were remembered too long ago. */
  function Prune(notified: map<string, int>, poll: Poll): map<string, int> {
    map id | id in notified && id in PendingIds(poll.pending)
             && poll.now - notified[id] <= NOTIFY_MAX_SEEN_AGE_MS :: notified[id]
  }

  predicate Seen(notified: map<string, int>, id: string) {
    id in notified && notified[id] != 0
  }

  /** The send of request `i` to subscriber `j` is attempted and succeeds, if the request is not skipped. */
  predicate Sends(subscribers: seq<Subscription>, poll: Poll, i: nat, j: nat)
    requires i < |poll.pending|
  {
    j < |subscribers| && ShouldNotify(subscribers[j], poll.pending[i]) && (i, j) in poll.sends
  }

  /** Some send to one of the first `n` subscribers succeeds. */
  predicate SendsAny(subscribers: seq<Subscription>, poll: Poll, i: nat, n: nat)
    requires i < |poll.pending| && n <= |subscribers|
  {
    exists j: nat | j < n :: Sends(subscribers, poll, i, j)
  }

  /** What is remembered once the first `n` requests have been handled. */
  function Remembered(state: State, poll: Poll, n: nat): map<string, int>
    requires n <= |poll.pending|
  {
    if n == 0 then Prune(state.notified, poll)
    else
      var before := Remembered(state, poll, n - 1);
      var id := poll.pending[n - 1].id;
      if !Seen(before, id) && SendsAny(state.subscribers, poll, n - 1, |state.subscribers|)
      then before[id := poll.now] else before
  }

  /** Request `i` is delivered to subscriber `j` during this tick. */
  predicate Delivers(state: State, poll: Poll, i: nat, j: nat)
    requires i < |poll.pending|
  {
    !Seen(Remembered(state, poll, i), poll.pending[i].id) && Sends(state.subscribers, poll, i, j)
  }

  /** The keys of the one-shot subscribers served by the first `n` requests. */
  function ServedOnce(state: State, poll: Poll, n: nat): set<string>
    requires n <= |poll.pending|
  {
    set i: nat, j: nat | i < n && j < |state.subscribers|
                         && Delivers(state, poll, i, j) && state.subscribers[j].mode == Once
      :: Key(state.subscribers[j].target)
  }

  function Without(subscribers: seq<Subscription>, keys: set<string>): seq<Subscription> {
    if subscribers == [] then []
    else
      var last := subscribers[|subscribers| - 1];
      Without(subscribers[..|subscribers| - 1], keys) + if Key(last.target) in keys then [] else [last]
  }

  /** The state a tick leaves behind. */
  function Tick(state: State, poll: Poll): State {
    State(Without(state.subscribers, ServedOnce(state, poll, |poll.pending|)),
          Remembered(state, poll, |poll.pending|))
  }

  // ---------------------------------------------------------------- the commands as functions

  /** Position of the first subscriber with the key, or the number of subscribers. */
  function IndexOfKey(subscribers: seq<Subscription>, key: string): (r: nat)
    ensures r <= |subscribers|
    ensures r < |subscribers| ==> Key(subscribers[r].target) == key
    ensures forall i | 0 <= i < r :: Key(subscribers[i].target) != key
  {
    if subscribers == [] || Key(subscribers[0].target) == key then 0
    else 1 + IndexOfKey(subscribers[1..], key)
  }

  /** `upsertNotifySubscriber`: an entry in the wanted mode is left alone. */
  function Upsert(subscribers: seq<Subscription>, target: Target, mode: Mode, now: int): seq<Subscription> {
    var i := IndexOfKey(subscribers, Key(target));
    var next := Subscription(target, mode, now);
    if i == |subscribers| then subscribers + [next]
    else if subscribers[i].mode == mode then subscribers
    else subscribers[i := next]
  }

  function RemoveKey(subscribers: seq<Subscription>, key: string): seq<Subscription> {
    var i := IndexOfKey(subscribers, key);
    if i == |subscribers| then subscribers else subscribers[..i] + subscribers[i + 1..]
  }

  // ---------------------------------------------------------------- the state file object, updated in place

  lemma SendsAnyStep(subscribers: seq<Subscription>, poll: Poll, i: nat, n: nat)
    requires i < |poll.pending| && n < |subscribers|
    ensures SendsAny(subscribers, poll, i, n + 1) <==>
            SendsAny(subscribers, poll, i, n) || Sends(subscribers, poll, i, n)
  {
  }

  /** The one-shot keys among the first `n` subscribers that request `i` is sent to. */
  function OnceKeys(subscribers: seq<Subscription>, poll: Poll, i: nat, n: nat): set<string>
    requires i < |poll.pending| && n <= |subscribers|
  {
    set j: nat | j < n && Sends(subscribers, poll, i, j) && subscribers[j].mode == Once :: Key(subscribers[j].target)
  }

  lemma OnceKeysStep(subscribers: seq<Subscription>, poll: Poll, i: nat, n: nat)
    requires i < |poll.pending| && n < |subscribers|
    ensures OnceKeys(subscribers, poll, i, n + 1) ==
            OnceKeys(subscribers, poll, i, n) +
            if Sends(subscribers, poll, i, n) && subscribers[n].mode == Once then {Key(subscribers[n].target)} else {}
  {
  }

  lemma ServedOnceStep(state: State, poll: Poll, i: nat)
    requires i < |poll.pending|
    ensures ServedOnce(state, poll, i + 1) ==
            ServedOnce(state, poll, i) +
            if Seen(Remembered(state, poll, i), poll.pending[i].id) then {}
            else OnceKeys(state.subscribers, poll, i, |state.subscribers|)
  {
    var seen := Seen(Remembered(state, poll, i), poll.pending[i].id);
    var added := if seen then {} else OnceKeys(state.subscribers, poll, i, |state.subscribers|);
    forall key ensures key in ServedOnce(state, poll, i + 1) <==> key in ServedOnce(state, poll, i) + added {
      if key in ServedOnce(state, poll, i + 1) {
        var k: nat, j: nat :| k < i + 1 && j < |state.subscribers| && Delivers(state, poll, k, j)
                              && state.subscribers[j].mode == Once && key == Key(state.subscribers[j].target);
        assert k < i || k == i;
      }
      if key in added {
        var j: nat :| j < |state.subscribers| && Sends(state.subscribers, poll, i, j)
                      && state.subscribers[j].mode == Once && key == Key(state.subscribers[j].target);
        assert Delivers(state, poll, i, j);
      }
    }
  }

  lemma {:induction false} WithoutLength(subscribers: seq<Subscription>, keys: set<string>)
    ensures |Without(subscribers, keys)| <= |subscribers|
    ensures |Without(subscribers, keys)| == |subscribers| <==> Without(subscribers, keys) == subscribers
  {
    if subscribers != [] {
      WithoutLength(subscribers[..|subscribers| - 1], keys);
      assert subscribers == subscribers[..|subscribers| - 1] + [subscribers[|subscribers| - 1]];
    }
  }

  /** Evidence that the tick stamped an id the state it started from did not have stamped. */
  predicate NewlyStamped(start: State, poll: Poll, notified: map<string, int>, id: string) {
    id in notified && notified[id] == poll.now && !(id in start.notified && start.notified[id] == poll.now)
  }

  lemma {:induction false} CurrentStampStays(state: State, poll: Poll, n: nat, id: string)
    requires n <= |poll.pending| && id in PendingIds(poll.pending)
    requires id in state.notified && state.notified[id] == poll.now
    ensures id in Remembered(state, poll, n) && Remembered(state, poll, n)[id] == poll.now
  {
    if n > 0 {
      CurrentStampStays(state, poll, n - 1, id);
    }
  }

  lemma StampIsNew(state: State, poll: Poll, i: nat)
    requires i < |poll.pending| && poll.now != 0 && !Seen(Remembered(state, poll, i), poll.pending[i].id)
    ensures NewlyStamped(state, poll, Remembered(state, poll, i)[poll.pending[i].id := poll.now], poll.pending[i].id)
  {
    var id := poll.pending[i].id;
    if id in state.notified && state.notified[id] == poll.now {
      CurrentStampStays(state, poll, i, id);
    }
  }

  class NotifyStateFile {
    var subscribers: seq<Subscription>
    var notified: map<string, int>

    function Value(): State
      reads this
    {
      State(subscribers, notified)
    }

    constructor (state: State)
      ensures Value() == state
    {
      subscribers := state.subscribers;
      notified := state.notified;
    }

    method UpsertNotifySubscriber(target: Target, mode: Mode, now: int) returns (changed: bool)
      modifies this`subscribers
      ensures subscribers == Upsert(old(subscribers), target, mode, now)
      ensures changed <==> subscribers != old(subscribers)
    {
      var index := IndexOfKey(subscribers, Key(target));
      var next := Subscription(target, mode, now);
      if index == |subscribers| {
        subscribers := subscribers + [next];
        return true;
      }
      if subscribers[index].mode == mode {
        return false;
      }
      subscribers := subscribers[index := next];
      assert subscribers[index] != old(subscribers)[index];
      return true;
    }

    method RemoveSubscriber(target: Target) returns (changed: bool)
      modifies this`subscribers
      ensures subscribers == RemoveKey(old(subscribers), Key(target))
      ensures changed <==> subscribers != old(subscribers)
    {
      var index := IndexOfKey(subscribers, Key(target));
      if index == |subscribers| {
        return false;
      }
      subscribers := subscribers[..index] + subscribers[index + 1..];
      assert |subscribers| < |old(subscribers)|;
      return true;
    }

    /** Drops stale ids one entry at a time. */
    method PruneNotified(poll: Poll) returns (changed: bool)
      modifies this`notified
      ensures notified == Prune(old(notified), poll)
      ensures changed <==> notified != old(notified)
    {
      changed := false;
      var entries := notified;
      var ids := notified.Keys;
      while ids != {}
        invariant ids <= entries.Keys && notified.Keys <= entries.Keys
        invariant forall id | id in notified :: notified[id] == entries[id]
        invariant forall id | id in ids :: id in notified
        invariant forall id | id in entries && id !in ids :: id in notified <==> id in Prune(entries, poll)
        invariant changed <==> notified != entries
        decreases |ids|
      {
        var id :| id in ids;
        ids := ids - {id};
        if id !in PendingIds(poll.pending) || poll.now - entries[id] > NOTIFY_MAX_SEEN_AGE_MS {
          notified := notified - {id};
          changed := true;
          assert id in entries && id !in notified;
        }
      }
    }

    /** Offers one unseen request to every subscriber. */
    method NotifySubscribers(poll: Poll, i: nat) returns (delivered: bool, served: set<string>)
      requires i < |poll.pending|
      ensures delivered <==> SendsAny(subscribers, poll, i, |subscribers|)
      ensures served == OnceKeys(subscribers, poll, i, |subscribers|)
    {
      delivered, served := false, {};
      for j := 0 to |subscribers|
        invariant delivered <==> SendsAny(subscribers, poll, i, j)
        invariant served == OnceKeys(subscribers, poll, i, j)
      {
        SendsAnyStep(subscribers, poll, i, j);
        OnceKeysStep(subscribers, poll, i, j);
        if !ShouldNotify(subscribers[j], poll.pending[i]) {
          continue;
        }
        var sent := (i, j) in poll.sends;
        delivered := delivered || sent;
        if sent && subscribers[j].mode == Once {
          served := served + {Key(subscribers[j].target)};
        }
      }
    }

    /** The loop over the pending requests, once the stale ids are gone. */
    method NotifyRequests(poll: Poll, ghost start: State) returns (changed: bool, served: set<string>)
      requires subscribers == start.subscribers && notified == Prune(start.notified, poll)
      requires poll.now != 0
      modifies this`notified
      ensures notified == Remembered(start, poll, |poll.pending|)
      ensures served == ServedOnce(start, poll, |poll.pending|)
      ensures if changed then exists id :: NewlyStamped(start, poll, notified, id) else notified == old(notified)
    {
      changed, served := false, {};
      for i := 0 to |poll.pending|
        invariant notified == Remembered(start, poll, i)
        invariant served == ServedOnce(start, poll, i)
        invariant if changed then exists id :: NewlyStamped(start, poll, notified, id) else notified == old(notified)
      {
        ServedOnceStep(start, poll, i);
        if Seen(notified, poll.pending[i].id) {
          continue;
        }
        var delivered, keys := NotifySubscribers(poll, i);
        served := served + keys;
        if delivered {
          StampIsNew(start, poll, i);
          notified := notified[poll.pending[i].id := poll.now];
          changed := true;
        }
      }
    }

    method DropServed(served: set<string>) returns (changed: bool)
      modifies this`subscribers
      ensures subscribers == Without(old(subscribers), served)
      ensures changed <==> subscribers != old(subscribers)
    {
      var initialCount := |subscribers|;
      WithoutLength(subscribers, served);
      subscribers := Without(subscribers, served);
      return |subscribers| != initialCount;
    }

    /** `notifyPendingPairingRequests` on the state just read; it is written back exactly when it changed. */
    method NotifyPendingPairingRequests(poll: Poll) returns (changed: bool)
      requires poll.now != 0
      modifies this
      ensures Value() == Tick(old(Value()), poll)
      ensures changed <==> Value() != old(Value())
    {
      ghost var start := Value();
      changed := PruneNotified(poll);
      if |subscribers| == 0 {
        NoSubscribersNoSends(start, poll, |poll.pending|);
        return;
      }
      var notifiedAny, served := NotifyRequests(poll, start);
      changed := changed || notifiedAny;
      WithoutNothing(subscribers);
      if |served| > 0 {
        var dropped := DropServed(served);
        changed := changed || dropped;
      }
    }
  }

  lemma {:induction false} WithoutNothing(subscribers: seq<Subscription>)
    ensures Without(subscribers, {}) == subscribers
  {
    if subscribers != [] {
      WithoutNothing(subscribers[..|subscribers| - 1]);
      assert subscribers == subscribers[..|subscribers| - 1] + [subscribers[|subscribers| - 1]];
    }
  }

  lemma {:induction false} NoSubscribersNoSends(state: State, poll: Poll, n: nat)
    requires state.subscribers == [] && n <= |poll.pending|
    ensures Remembered(state, poll, n) == Prune(state.notified, poll)
  {
    if n > 0 {
      NoSubscribersNoSends(state, poll, n - 1);
    }
  }
}
