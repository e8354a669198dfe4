/** Which requests a poll tick of extensions/device-pair/notify.ts delivers, and which it skips. */
module NotifyDeliveries {
  import opened Base
  import opened NotifyState
  import opened PairNotify

  /** The tick delivers some request with this id to somebody. */
  ghost predicate DeliversId(s: State, poll: Poll, id: string) {
    exists i: nat, j: nat :: i < |poll.pending| && poll.pending[i].id == id && Delivers(s, poll, i, j)
  }

  /** The state remembers the id, and not for too long. */
  predicate Remembers(s: State, poll: Poll, id: string) {
    id in s.notified && s.notified[id] != 0 && poll.now - s.notified[id] <= NOTIFY_MAX_SEEN_AGE_MS
  }

  /** Request `i` has this id, and a send of it to an eligible subscriber succeeds if it is attempted. */
  predicate SentFor(s: State, poll: Poll, i: nat, id: string) {
    i < |poll.pending| && poll.pending[i].id == id && SendsAny(s.subscribers, poll, i, |s.subscribers|)
  }

  ghost predicate SendSucceeds(s: State, poll: Poll, id: string) {
    exists i: nat :: SentFor(s, poll, i, id)
  }

  // ---------------------------------------------------------------- stamps

  /** One request adds at most its own id, with the current time. */
  lemma RememberedStep(s: State, poll: Poll, n: nat)
    requires n < |poll.pending|
    ensures var before, after := Remembered(s, poll, n), Remembered(s, poll, n + 1);
            after == before || after == before[poll.pending[n].id := poll.now]
  {
  }

  lemma {:induction false} StampStays(s: State, poll: Poll, i: nat, n: nat, id: string)
    requires i <= n <= |poll.pending|
    requires id in Remembered(s, poll, i) && Remembered(s, poll, i)[id] == poll.now
    ensures id in Remembered(s, poll, n) && Remembered(s, poll, n)[id] == poll.now
    decreases n
  {
    if i < n {
      StampStays(s, poll, i, n - 1, id);
      RememberedStep(s, poll, n - 1);
    }
  }

  /** A delivered id is remembered with the time of the tick. */
  lemma DeliveredIdIsStamped(s: State, poll: Poll, id: string)
    requires DeliversId(s, poll, id)
    ensures id in Tick(s, poll).notified && Tick(s, poll).notified[id] == poll.now
    ensures id in PendingIds(poll.pending)
  {
    var i: nat, j: nat :| i < |poll.pending| && poll.pending[i].id == id && Delivers(s, poll, i, j);
    assert SendsAny(s.subscribers, poll, i, |s.subscribers|);
    StampStays(s, poll, i + 1, |poll.pending|, id);
  }

  lemma {:induction false} MemoryUntouched(s: State, poll: Poll, n: nat, id: string)
    requires n <= |poll.pending| && Remembers(s, poll, id) && id in PendingIds(poll.pending)
    ensures id in Remembered(s, poll, n) && Remembered(s, poll, n)[id] == s.notified[id]
  {
    if n > 0 {
      MemoryUntouched(s, poll, n - 1, id);
    }
  }

  /** An id that is remembered, pending and not too old is not delivered, and stays remembered. */
  lemma RememberedIdIsSkipped(s: State, poll: Poll, id: string)
    requires Remembers(s, poll, id) && id in PendingIds(poll.pending)
    ensures !DeliversId(s, poll, id)
    ensures id in Tick(s, poll).notified && Tick(s, poll).notified[id] == s.notified[id]
  {
    MemoryUntouched(s, poll, |poll.pending|, id);
    forall i: nat, j: nat | i < |poll.pending| && poll.pending[i].id == id ensures !Delivers(s, poll, i, j) {
      MemoryUntouched(s, poll, i, id);
    }
  }

  // ---------------------------------------------------------------- what is delivered, exactly

  lemma {:induction false} FirstSend(s: State, poll: Poll, i: nat, id: string) returns (k: nat)
    requires SentFor(s, poll, i, id)
    ensures SentFor(s, poll, k, id) && forall m: nat | m < k :: !SentFor(s, poll, m, id)
  {
    if m: nat :| m < i && SentFor(s, poll, m, id) {
      k := FirstSend(s, poll, m, id);
    } else {
      k := i;
    }
  }

  lemma NotSeenAtFirst(s: State, poll: Poll, id: string)
    requires !Remembers(s, poll, id)
    ensures !Seen(Remembered(s, poll, 0), id)
  {
  }

  lemma NotSeenNext(s: State, poll: Poll, n: nat, id: string)
    requires n < |poll.pending| && !Seen(Remembered(s, poll, n), id) && !SentFor(s, poll, n, id)
    ensures !Seen(Remembered(s, poll, n + 1), id)
  {
  }

  /** As long as nothing has been sent for it, an id that was not remembered is not seen. */
  lemma {:induction false} NotSeenYet(s: State, poll: Poll, n: nat, id: string)
    requires n <= |poll.pending| && !Remembers(s, poll, id)
    requires forall m: nat | m < n :: !SentFor(s, poll, m, id)
    ensures !Seen(Remembered(s, poll, n), id)
  {
    if n == 0 {
      NotSeenAtFirst(s, poll, id);
    } else {
      NotSeenYet(s, poll, n - 1, id);
      NotSeenNext(s, poll, n - 1, id);
    }
  }

  /** A tick delivers an id exactly when the state it started from does not remember it and a send for it succeeds. */
  lemma DeliversExactly(s: State, poll: Poll, id: string)
    ensures DeliversId(s, poll, id) <==> !Remembers(s, poll, id) && SendSucceeds(s, poll, id)
  {
    if DeliversId(s, poll, id) {
      var i: nat, j: nat :| i < |poll.pending| && poll.pending[i].id == id && Delivers(s, poll, i, j);
      assert SentFor(s, poll, i, id);
      assert id in PendingIds(poll.pending);
      if Remembers(s, poll, id) {
        RememberedIdIsSkipped(s, poll, id);
      }
    } else if !Remembers(s, poll, id) && SendSucceeds(s, poll, id) {
      var i: nat :| SentFor(s, poll, i, id);
      var k := FirstSend(s, poll, i, id);
      NotSeenYet(s, poll, k, id);
      var j: nat :| j < |s.subscribers| && Sends(s.subscribers, poll, k, j);
      assert Delivers(s, poll, k, j);
    }
  }

  // ---------------------------------------------------------------- who is served, exactly

  lemma {:induction false} SeenStays(s: State, poll: Poll, m: nat, n: nat, id: string)
    requires m <= n <= |poll.pending| && poll.now != 0 && Seen(Remembered(s, poll, m), id)
    ensures Seen(Remembered(s, poll, n), id)
    decreases n
  {
    if m < n {
      SeenStays(s, poll, m, n - 1, id);
      RememberedStep(s, poll, n - 1);
    }
  }

  /** What is sent for is seen from then on. */
  lemma SeenAfterSend(s: State, poll: Poll, m: nat, n: nat, id: string)
    requires m < n <= |poll.pending| && poll.now != 0 && SentFor(s, poll, m, id)
    ensures Seen(Remembered(s, poll, n), id)
  {
    SeenStays(s, poll, m + 1, n, id);
  }

  /** No request before number `i` with this id has been sent to anybody. */
  ghost predicate NoEarlierSend(s: State, poll: Poll, i: nat, id: string) {
    forall m: nat | m < i :: !SentFor(s, poll, m, id)
  }

  /** Request `i` reaches subscriber `j` exactly if the send succeeds, as the first for an id not remembered. */
  lemma DeliversToExactly(s: State, poll: Poll, i: nat, j: nat)
    requires i < |poll.pending| && poll.now != 0
    ensures var id := poll.pending[i].id;
            Delivers(s, poll, i, j) <==>
            Sends(s.subscribers, poll, i, j) && !Remembers(s, poll, id) && NoEarlierSend(s, poll, i, id)
  {
    var id := poll.pending[i].id;
    if Remembers(s, poll, id) {
      assert id in PendingIds(poll.pending);
      MemoryUntouched(s, poll, i, id);
    } else if NoEarlierSend(s, poll, i, id) {
      NotSeenYet(s, poll, i, id);
    } else {
      var m: nat :| m < i && SentFor(s, poll, m, id);
      SeenAfterSend(s, poll, m, i, id);
    }
  }

  /** Some one-shot subscription with this key would be sent a request, the first for an id not remembered. */
  ghost predicate WouldServe(s: State, poll: Poll, key: string) {
    exists i: nat, j: nat :: ServesAt(s, poll, key, i, j)
  }

  ghost predicate ServesAt(s: State, poll: Poll, key: string, i: nat, j: nat) {
    && i < |poll.pending| && j < |s.subscribers|
    && s.subscribers[j].mode == Once && Key(s.subscribers[j].target) == key
    && Sends(s.subscribers, poll, i, j)
    && !Remembers(s, poll, poll.pending[i].id) && NoEarlierSend(s, poll, i, poll.pending[i].id)
  }

  /** Which one-shot subscriptions a tick serves can be told from the state it starts from. */
  lemma ServesExactly(s: State, poll: Poll, key: string)
    requires poll.now != 0
    ensures key in ServedOnce(s, poll, |poll.pending|) <==> WouldServe(s, poll, key)
  {
    if key in ServedOnce(s, poll, |poll.pending|) {
      var i: nat, j: nat :| i < |poll.pending| && j < |s.subscribers| && Delivers(s, poll, i, j)
                            && s.subscribers[j].mode == Once && key == Key(s.subscribers[j].target);
      DeliversToExactly(s, poll, i, j);
      assert ServesAt(s, poll, key, i, j);
    }
    if WouldServe(s, poll, key) {
      var i: nat, j: nat :| ServesAt(s, poll, key, i, j);
      DeliversToExactly(s, poll, i, j);
    }
  }

  // ---------------------------------------------------------------- who is reached, told in stamps and modes

  /** The send succeeds, and a one-shot subscriber is sent only what is stamped since its arming. */
  predicate Receives(s: State, poll: Poll, i: nat, j: nat) {
    && i < |poll.pending| && j < |s.subscribers| && (i, j) in poll.sends
    && (s.subscribers[j].mode == Persistent
        || (&& poll.pending[i].ts.Some? && poll.pending[i].ts.value >= 1.0
            && poll.pending[i].ts.value >= s.subscribers[j].addedAtMs as real))
  }

  /** The id has a stamp, other than zero, of at most 24 hours ago. */
  predicate RecentlyStamped(s: State, poll: Poll, id: string) {
    id in s.notified && s.notified[id] != 0 && poll.now - s.notified[id] <= 86_400_000
  }

  /** Somebody receives a request before number `i` with this id. */
  ghost predicate ReceivedEarlier(s: State, poll: Poll, i: nat, id: string) {
    exists m: nat, k: nat :: m < i && m < |poll.pending| && poll.pending[m].id == id && Receives(s, poll, m, k)
  }

  lemma TruncatedStamp(r: real, n: int)
    ensures Trunc(r) > 0 && Trunc(r) >= n <==> r >= 1.0 && r >= n as real
  {
  }

  lemma SendsIsReceives(s: State, poll: Poll, i: nat, j: nat)
    requires i < |poll.pending|
    ensures Sends(s.subscribers, poll, i, j) <==> Receives(s, poll, i, j)
  {
    if poll.pending[i].ts.Some? && j < |s.subscribers| {
      TruncatedStamp(poll.pending[i].ts.value, s.subscribers[j].addedAtMs);
    }
  }

  lemma SentIsReceived(s: State, poll: Poll, m: nat, id: string)
    ensures SentFor(s, poll, m, id) <==>
            m < |poll.pending| && poll.pending[m].id == id && exists k: nat :: Receives(s, poll, m, k)
  {
    if SentFor(s, poll, m, id) {
      var k: nat :| k < |s.subscribers| && Sends(s.subscribers, poll, m, k);
      SendsIsReceives(s, poll, m, k);
    }
    if m < |poll.pending| && poll.pending[m].id == id {
      if k: nat :| Receives(s, poll, m, k) {
        SendsIsReceives(s, poll, m, k);
        assert k < |s.subscribers|;
      }
    }
  }

  lemma EarlierSendIsReceived(s: State, poll: Poll, i: nat, id: string)
    ensures NoEarlierSend(s, poll, i, id) <==> !ReceivedEarlier(s, poll, i, id)
  {
    if ReceivedEarlier(s, poll, i, id) {
      var m: nat, k: nat :| m < i && m < |poll.pending| && poll.pending[m].id == id && Receives(s, poll, m, k);
      SentIsReceived(s, poll, m, id);
    } else {
      forall m: nat | m < i ensures !SentFor(s, poll, m, id) {
        SentIsReceived(s, poll, m, id);
      }
    }
  }

  /** Request `i` reaches subscriber `j`, told in stamps, modes and sends alone. */
  lemma ReachedExactly(s: State, poll: Poll, i: nat, j: nat)
    requires i < |poll.pending| && poll.now != 0
    ensures var id := poll.pending[i].id;
            Delivers(s, poll, i, j) <==>
            Receives(s, poll, i, j) && !RecentlyStamped(s, poll, id) && !ReceivedEarlier(s, poll, i, id)
  {
    DeliversToExactly(s, poll, i, j);
    SendsIsReceives(s, poll, i, j);
    EarlierSendIsReceived(s, poll, i, poll.pending[i].id);
  }

  /** A persistent subscriber is reached whatever the stamp of the request. */
  lemma PersistentIsReached(s: State, poll: Poll, i: nat, j: nat)
    requires i < |poll.pending| && j < |s.subscribers| && s.subscribers[j].mode == Persistent && poll.now != 0
    ensures Delivers(s, poll, i, j) <==>
            && (i, j) in poll.sends && !RecentlyStamped(s, poll, poll.pending[i].id)
            && !ReceivedEarlier(s, poll, i, poll.pending[i].id)
  {
    ReachedExactly(s, poll, i, j);
  }

  /** A one-shot subscriber is reached only if the stamp, cut to an integer, is positive and not before its arming. */
  lemma OneShotIsReached(s: State, poll: Poll, i: nat, j: nat)
    requires i < |poll.pending| && j < |s.subscribers| && s.subscribers[j].mode == Once && poll.now != 0
    ensures Delivers(s, poll, i, j) <==>
            && (i, j) in poll.sends && !RecentlyStamped(s, poll, poll.pending[i].id)
            && !ReceivedEarlier(s, poll, i, poll.pending[i].id)
            && poll.pending[i].ts.Some? && poll.pending[i].ts.value >= 1.0
            && poll.pending[i].ts.value >= s.subscribers[j].addedAtMs as real
  {
    ReachedExactly(s, poll, i, j);
  }

  // ---------------------------------------------------------------- what a tick leaves, told in stamps and modes

  predicate IsPending(poll: Poll, id: string) {
    exists i :: 0 <= i < |poll.pending| && poll.pending[i].id == id
  }

  /** Somebody receives a request with this id. */
  ghost predicate IsReceived(s: State, poll: Poll, id: string) {
    exists i: nat, j: nat :: i < |poll.pending| && poll.pending[i].id == id && Receives(s, poll, i, j)
  }

  lemma SendSucceedsIsReceived(s: State, poll: Poll, id: string)
    ensures SendSucceeds(s, poll, id) <==> IsReceived(s, poll, id)
  {
    if SendSucceeds(s, poll, id) {
      var i: nat :| SentFor(s, poll, i, id);
      SentIsReceived(s, poll, i, id);
    }
    if IsReceived(s, poll, id) {
      var i: nat, j: nat :| i < |poll.pending| && poll.pending[i].id == id && Receives(s, poll, i, j);
      SentIsReceived(s, poll, i, id);
      assert SentFor(s, poll, i, id);
    }
  }

  lemma {:induction false} NothingStamped(s: State, poll: Poll, n: nat, id: string)
    requires n <= |poll.pending| && id !in Prune(s.notified, poll) && !DeliversId(s, poll, id)
    ensures id !in Remembered(s, poll, n)
  {
    if n > 0 {
      NothingStamped(s, poll, n - 1, id);
      if poll.pending[n - 1].id == id && SendsAny(s.subscribers, poll, n - 1, |s.subscribers|) {
        var j: nat :| j < |s.subscribers| && Sends(s.subscribers, poll, n - 1, j);
        assert !Delivers(s, poll, n - 1, j);
      }
    }
  }

  lemma PendingIdsAre(poll: Poll, id: string)
    ensures id in PendingIds(poll.pending) <==> IsPending(poll, id)
  {
  }

  /**
   * What a tick remembers of an id: the old stamp if it is pending and that is at most 24 hours old, else
   * the time of the tick if somebody received a request with it, else nothing.
   */
  lemma TickLeaves(s: State, poll: Poll, id: string)
    requires poll.now != 0 && (id in s.notified ==> s.notified[id] != 0)
    ensures var after := Tick(s, poll).notified;
            if RecentlyStamped(s, poll, id) && IsPending(poll, id) then id in after && after[id] == s.notified[id]
            else if IsReceived(s, poll, id) then id in after && after[id] == poll.now
            else id !in after
  {
    PendingIdsAre(poll, id);
    DeliversExactly(s, poll, id);
    SendSucceedsIsReceived(s, poll, id);
    if RecentlyStamped(s, poll, id) && IsPending(poll, id) {
      RememberedIdIsSkipped(s, poll, id);
    } else if IsReceived(s, poll, id) {
      DeliveredIdIsStamped(s, poll, id);
    } else {
      NothingStamped(s, poll, |poll.pending|, id);
    }
  }

  /** A chat that subscribed at 2000 hears of a request stamped 1000, at a poll at 3000, which remembers that. */
  lemma OldRequestIsHeard(target: Target)
    ensures var s := State([Subscription(target, Persistent, 2000)], map[]);
            var poll := Poll(3000, [Request("r", Some(1000.0))], {(0, 0)});
            Delivers(s, poll, 0, 0) && "r" in Tick(s, poll).notified && Tick(s, poll).notified["r"] == 3000
  {
    var s := State([Subscription(target, Persistent, 2000)], map[]);
    var poll := Poll(3000, [Request("r", Some(1000.0))], {(0, 0)});
    PersistentIsReached(s, poll, 0, 0);
    TickLeaves(s, poll, "r");
    assert poll.pending[0].id == "r" && Receives(s, poll, 0, 0);
  }

  /** Armed at 2000 and asked for once, it hears of a request stamped 2000 but of none stamped 1999. */
  lemma OneShotBoundary(target: Target)
    ensures var s := State([Subscription(target, Once, 2000)], map[]);
            && Delivers(s, Poll(3000, [Request("r", Some(2000.0))], {(0, 0)}), 0, 0)
            && !Delivers(s, Poll(3000, [Request("r", Some(1999.0))], {(0, 0)}), 0, 0)
            && !Delivers(s, Poll(3000, [Request("r", None)], {(0, 0)}), 0, 0)
  {
    var s := State([Subscription(target, Once, 2000)], map[]);
    OneShotIsReached(s, Poll(3000, [Request("r", Some(2000.0))], {(0, 0)}), 0, 0);
    OneShotIsReached(s, Poll(3000, [Request("r", Some(1999.0))], {(0, 0)}), 0, 0);
    OneShotIsReached(s, Poll(3000, [Request("r", None)], {(0, 0)}), 0, 0);
  }
}
