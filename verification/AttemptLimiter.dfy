/**
 The sliding-window limiter for attempts per client.  It forgets what has left
 the window; the reference it is compared with keeps every accepted attempt.
 */
module AttemptLimiter {
  import opened Collections

  // An accepted attempt: who and when.
  datatype Attempt<K> = Attempt(key: K, time: nat)

  datatype Rules = Rules(maximum: nat, window: nat, maximumKeys: nat)

  // The accepted attempts of one client that are still in the window.
  function InWindow<K(==)>(history: seq<Attempt<K>>, key: K, now: int, window: nat): seq<nat> {
    if history == [] then []
    else
      var last := history[|history| - 1];
      InWindow(history[..|history| - 1], key, now, window) + (if last.key == key && now - last.time < window then [last.time] else [])
  }

  function KeysOf<K(==)>(history: seq<Attempt<K>>): set<K> {
    set i | 0 <= i < |history| :: history[i].key
  }

  function LiveKeys<K(==)>(history: seq<Attempt<K>>, now: int, window: nat): set<K> {
    set k | k in KeysOf(history) && InWindow(history, k, now, window) != []
  }

  // The answer of a limiter that remembers everything.
  predicate Answer<K(==)>(rules: Rules, history: seq<Attempt<K>>, key: K, now: int) {
    var mine := InWindow(history, key, now, rules.window);
    (mine != [] || |LiveKeys(history, now, rules.window)| < rules.maximumKeys) && |mine| < rules.maximum
  }

  ghost predicate Ordered<K>(history: seq<Attempt<K>>) {
    forall i, j :: 0 <= i < j < |history| ==> history[i].time <= history[j].time
  }

  // Drops attempts from the front while they are out of the window.
  function Recent(times: seq<nat>, now: int, window: nat): seq<nat> {
    if times != [] && now - times[0] >= window then Recent(times[1..], now, window) else times
  }

  function Times<K(==)>(attempts: map<K, seq<nat>>, key: K): seq<nat> {
    if key in attempts then attempts[key] else []
  }

  ghost predicate Sorted(times: seq<nat>) {
    forall i, j :: 0 <= i < j < |times| ==> times[i] <= times[j]
  }

  // Forgetting at an earlier time does not change what is recent later.
  lemma {:induction false} RecentTwice(times: seq<nat>, now: int, later: int, window: nat)
    requires now <= later
    ensures Recent(Recent(times, now, window), later, window) == Recent(times, later, window)
  {
    if times != [] && now - times[0] >= window {
      RecentTwice(times[1..], now, later, window);
    }
  }

  // Among ordered times, dropping from the front drops exactly what is out of the window.
  lemma {:induction false} RecentAppend(times: seq<nat>, t: nat, now: int, window: nat)
    requires Sorted(times + [t])
    ensures Recent(times + [t], now, window) ==
            if now - t < window then Recent(times, now, window) + [t] else []
  {
    if times == [] {
      assert times + [t] == [t] && [t][1..] == [];
    } else if now - times[0] >= window {
      assert (times + [t])[1..] == times[1..] + [t];
      assert Sorted(times[1..] + [t]) by {
        forall i, j | 0 <= i < j < |times[1..] + [t]|
          ensures (times[1..] + [t])[i] <= (times[1..] + [t])[j]
        {
          assert (times + [t])[i + 1] <= (times + [t])[j + 1];
        }
      }
      RecentAppend(times[1..], t, now, window);
    } else {
      assert (times + [t])[0] <= (times + [t])[|times|];
    }
  }

  // The times in the window are in order, and none is later than the last attempt.
  lemma {:induction false} WindowIsSorted<K>(history: seq<Attempt<K>>, key: K, now: int, window: nat, latest: nat)
    requires Ordered(history) && forall i :: 0 <= i < |history| ==> history[i].time <= latest
    ensures Sorted(InWindow(history, key, now, window) + [latest])
  {
    if history != [] {
      var front, last := history[..|history| - 1], history[|history| - 1];
      WindowIsSorted(front, key, now, window, last.time);
      var times := InWindow(front, key, now, window);
      assert (times + [last.time])[|times|] == last.time;
      assert forall i :: 0 <= i < |times| ==> times[i] == (times + [last.time])[i] <= last.time;
    }
  }

  // The window only moves on.
  lemma {:induction false} WindowMoves<K>(history: seq<Attempt<K>>, key: K, now: int, later: int, window: nat)
    requires Ordered(history) && now <= later
    ensures InWindow(history, key, later, window) == Recent(InWindow(history, key, now, window), later, window)
  {
    if history != [] {
      hide Recent, Sorted;
      var front, last := history[..|history| - 1], history[|history| - 1];
      WindowMoves(front, key, now, later, window);
      var times := InWindow(front, key, now, window);
      WindowIsSorted(front, key, now, window, last.time);
      assert times + [] == times;
      assert InWindow(front, key, later, window) + [] == InWindow(front, key, later, window);
      if last.key == key && now - last.time < window {
        RecentAppend(times, last.time, later, window);
        if later - last.time >= window {
          AllOutOfWindow(front, key, later, window, last.time);
        }
      }
    }
  }

  lemma {:induction false} AllOutOfWindow<K>(history: seq<Attempt<K>>, key: K, now: int, window: nat, latest: nat)
    requires forall i :: 0 <= i < |history| ==> history[i].time <= latest
    requires now - latest >= window
    ensures InWindow(history, key, now, window) == []
  {
    if history != [] {
      AllOutOfWindow(history[..|history| - 1], key, now, window, latest);
    }
  }

  // What the pruned memory has in common with the full history at a time.
  ghost predicate Agrees<K(!new)>(attempts: map<K, seq<nat>>, history: seq<Attempt<K>>, now: int, window: nat) {
    forall k :: Recent(Times(attempts, k), now, window) == InWindow(history, k, now, window)
  }

  lemma AgreesLater<K(!new)>(attempts: map<K, seq<nat>>, history: seq<Attempt<K>>, now: int, later: int, window: nat)
    requires Agrees(attempts, history, now, window) && Ordered(history) && now <= later
    ensures Agrees(attempts, history, later, window)
  {
    forall k
      ensures Recent(Times(attempts, k), later, window) == InWindow(history, k, later, window)
    {
      RecentTwice(Times(attempts, k), now, later, window);
      WindowMoves(history, k, now, later, window);
    }
  }

  // The memory after pruning: for each client what is recent, and no client without any.
  ghost predicate Pruned<K>(before: map<K, seq<nat>>, after: map<K, seq<nat>>, now: int, window: nat) {
    && (forall k :: k in before && Recent(before[k], now, window) != [] ==> k in after && after[k] == Recent(before[k], now, window))
    && (forall k :: k in after ==> k in before && Recent(before[k], now, window) != [])
  }

  lemma PrunedKeysAreLive<K(!new)>(before: map<K, seq<nat>>, after: map<K, seq<nat>>, history: seq<Attempt<K>>, now: int, window: nat)
    requires Pruned(before, after, now, window) && Agrees(before, history, now, window)
    ensures forall k :: Times(after, k) == InWindow(history, k, now, window)
    ensures after.Keys == LiveKeys(history, now, window)
  {
    forall k
      ensures Times(after, k) == InWindow(history, k, now, window)
      ensures InWindow(history, k, now, window) != [] ==> k in KeysOf(history)
    {
      assert Recent(Times(before, k), now, window) == InWindow(history, k, now, window);
      if InWindow(history, k, now, window) != [] {
        WindowHasKey(history, k, now, window);
      }
    }
  }

  lemma {:induction false} WindowHasKey<K>(history: seq<Attempt<K>>, key: K, now: int, window: nat)
    requires InWindow(history, key, now, window) != []
    ensures key in KeysOf(history)
  {
    if history != [] {
      var front := history[..|history| - 1];
      if InWindow(front, key, now, window) != [] {
        WindowHasKey(front, key, now, window);
        var i :| 0 <= i < |front| && front[i].key == key;
        assert history[i].key == key;
      } else {
        assert history[|history| - 1].key == key;
      }
    }
  }

  // Every entry was admitted by the reference on the entries before it.
  ghost predicate Admitted<K(!new)>(rules: Rules, history: seq<Attempt<K>>) {
    forall i :: 0 <= i < |history| ==> Answer(rules, history[..i], history[i].key, history[i].time)
  }

  lemma EmptyIsAdmitted<K(!new)>(rules: Rules)
    ensures Admitted<K>(rules, [])
  {
  }

  lemma AdmittedGrows<K(!new)>(rules: Rules, history: seq<Attempt<K>>, next: Attempt<K>)
    requires Admitted(rules, history) && Answer(rules, history, next.key, next.time)
    ensures Admitted(rules, history + [next])
  {
    var longer := history + [next];
    forall i | 0 <= i < |longer|
      ensures Answer(rules, longer[..i], longer[i].key, longer[i].time)
    {
      if i < |history| {
        assert longer[..i] == history[..i];
        assert Answer(rules, history[..i], history[i].key, history[i].time);
      } else {
        assert longer[..i] == history;
      }
    }
  }

  lemma AdmittedFront<K(!new)>(rules: Rules, history: seq<Attempt<K>>, front: seq<Attempt<K>>, last: Attempt<K>)
    requires history == front + [last] && Admitted(rules, history)
    ensures Admitted(rules, front) && Answer(rules, front, last.key, last.time)
  {
    forall i | 0 <= i < |front|
      ensures Answer(rules, front[..i], front[i].key, front[i].time)
    {
      assert front[..i] == history[..i];
      assert Answer(rules, history[..i], history[i].key, history[i].time);
    }
    assert history[..|front|] == front;
    assert Answer(rules, history[..|front|], history[|front|].key, history[|front|].time);
  }

  class Limiter<K(==, !new)> {
    const rules: Rules
    var attempts: map<K, seq<nat>>
    ghost var history: seq<Attempt<K>>
    ghost var clock: nat

    ghost predicate Valid()
      reads this
    {
      && Ordered(history) && (forall i :: 0 <= i < |history| ==> history[i].time <= clock)
      && Agrees(attempts, history, clock, rules.window)
      && Admitted(rules, history)
    }

    constructor (rules: Rules)
      ensures Valid() && history == [] && this.rules == rules
    {
      this.rules := rules;
      attempts := map[];
      history := [];
      clock := 0;
      new;
      EmptyIsAdmitted<K>(rules);
    }

    // Forgets what has left the window, client by client.
    method Prune(now: nat) returns (kept: map<K, seq<nat>>)
      ensures Pruned(attempts, kept, now, rules.window)
    {
      kept := map[];
      var keys := attempts.Keys;
      while keys != {}
        invariant keys <= attempts.Keys
        invariant forall k :: k in attempts && k !in keys && Recent(attempts[k], now, rules.window) != [] ==>
                    k in kept && kept[k] == Recent(attempts[k], now, rules.window)
        invariant forall k :: k in kept ==> k in attempts && k !in keys && Recent(attempts[k], now, rules.window) != []
        decreases keys
      {
        var k :| k in keys;
        var times := attempts[k];
        while times != [] && now - times[0] >= rules.window
          invariant Recent(times, now, rules.window) == Recent(attempts[k], now, rules.window)
          decreases |times|
        {
          times := times[1..];
        }
        if times != [] {
          kept := kept[k := times];
        }
        keys := keys - {k};
      }
    }

    /** Answers exactly as a limiter that never forgets, and admits only what that one admits. */
    method Allow(key: K, now: nat) returns (ok: bool)
      requires Valid() && clock <= now
      modifies this
      ensures Valid() && clock == now
      ensures ok == Answer(rules, old(history), key, now)
      ensures history == if ok then old(history) + [Attempt(key, now)] else old(history)
    {
      hide Agrees, Pruned, InWindow, LiveKeys, Admitted;
      AgreesLater(attempts, history, clock, now, rules.window);
      var kept := Prune(now);
      PrunedKeysAreLive(attempts, kept, history, now, rules.window);
      PrunedAgrees(kept, history, now, rules.window);
      attempts, clock := kept, now;
      if key !in attempts && |attempts| >= rules.maximumKeys {
        return false;
      }
      var times := Times(attempts, key);
      if |times| >= rules.maximum {
        attempts := attempts[key := times];
        assert forall k :: Times(attempts, k) == Times(kept, k);
        PrunedAgrees(attempts, history, now, rules.window);
        return false;
      }
      AcceptAgrees(kept, history, key, now, rules.window);
      AdmittedGrows(rules, history, Attempt(key, now));
      attempts := attempts[key := times + [now]];
      history := history + [Attempt(key, now)];
      ok := true;
    }
  }

  lemma {:induction false} RecentInside(times: seq<nat>, now: int, window: nat)
    requires forall i :: 0 <= i < |times| ==> now - times[i] < window
    ensures Recent(times, now, window) == times
  {
  }

  lemma {:induction false} WindowIsInside<K>(history: seq<Attempt<K>>, key: K, now: int, window: nat)
    ensures forall i :: 0 <= i < |InWindow(history, key, now, window)| ==> now - InWindow(history, key, now, window)[i] < window
  {
    if history != [] {
      WindowIsInside(history[..|history| - 1], key, now, window);
    }
  }

  lemma PrunedAgrees<K(!new)>(attempts: map<K, seq<nat>>, history: seq<Attempt<K>>, now: int, window: nat)
    requires forall k :: Times(attempts, k) == InWindow(history, k, now, window)
    ensures Agrees(attempts, history, now, window)
  {
    forall k
      ensures Recent(Times(attempts, k), now, window) == InWindow(history, k, now, window)
    {
      WindowIsInside(history, k, now, window);
      RecentInside(Times(attempts, k), now, window);
    }
  }

  lemma WindowOfNothing<K>(history: seq<Attempt<K>>, key: K, now: nat)
    requires forall i :: 0 <= i < |history| ==> history[i].time <= now
    ensures InWindow(history, key, now, 0) == []
  {
    AllOutOfWindow(history, key, now, 0, now);
  }

  lemma AcceptedIsRecent<K>(history: seq<Attempt<K>>, key: K, now: nat, window: nat)
    requires forall i :: 0 <= i < |history| ==> history[i].time <= now
    ensures Recent(InWindow(history, key, now, window) + [now], now, window)
         == InWindow(history, key, now, window) + (if window > 0 then [now] else [])
  {
    hide InWindow;
    var mine := InWindow(history, key, now, window);
    WindowIsInside(history, key, now, window);
    if window > 0 {
      RecentInside(mine + [now], now, window);
    } else {
      WindowOfNothing(history, key, now);
      assert mine + [now] == [now] && [now][1..] == [];
      assert Recent([], now, window) == [];
    }
  }

  lemma WindowGrows<K>(history: seq<Attempt<K>>, next: Attempt<K>, key: K, now: int, window: nat)
    ensures InWindow(history + [next], key, now, window)
         == InWindow(history, key, now, window) + (if next.key == key && now - next.time < window then [next.time] else [])
  {
    assert (history + [next])[..|history|] == history;
  }

  lemma AcceptAgrees<K(!new)>(attempts: map<K, seq<nat>>, history: seq<Attempt<K>>, key: K, now: nat, window: nat)
    requires forall k :: Times(attempts, k) == InWindow(history, k, now, window)
    requires forall i :: 0 <= i < |history| ==> history[i].time <= now
    ensures Agrees(attempts[key := Times(attempts, key) + [now]], history + [Attempt(key, now)], now, window)
  {
    hide Recent, InWindow;
    var after, longer := attempts[key := Times(attempts, key) + [now]], history + [Attempt(key, now)];
    forall k
      ensures Recent(Times(after, k), now, window) == InWindow(longer, k, now, window)
    {
      WindowGrows(history, Attempt(key, now), k, now, window);
      if k == key {
        AcceptedIsRecent(history, key, now, window);
      } else {
        WindowIsInside(history, k, now, window);
        RecentInside(Times(attempts, k), now, window);
      }
    }
  }

  // The attempts of a client between two moments.
  function Between<K(==)>(history: seq<Attempt<K>>, key: K, after: int, upto: int): nat {
    if history == [] then 0
    else
      var last := history[|history| - 1];
      Between(history[..|history| - 1], key, after, upto) + (if last.key == key && after < last.time <= upto then 1 else 0)
  }

  lemma {:induction false} BetweenIsInWindow<K>(history: seq<Attempt<K>>, key: K, now: int, upto: int, window: nat)
    requires now <= upto
    ensures Between(history, key, upto - window, upto) <= |InWindow(history, key, now, window)|
  {
    if history != [] {
      BetweenIsInWindow(history[..|history| - 1], key, now, upto, window);
    }
  }

  lemma {:induction false} WindowIsCounted<K>(history: seq<Attempt<K>>, key: K, now: int, window: nat)
    requires forall i :: 0 <= i < |history| ==> history[i].time <= now
    ensures |InWindow(history, key, now, window)| == Between(history, key, now - window, now)
  {
    if history != [] {
      WindowIsCounted(history[..|history| - 1], key, now, window);
    }
  }

  // The clients with an accepted attempt after a moment.
  function Active<K(==)>(history: seq<Attempt<K>>, after: int): set<K> {
    set i | 0 <= i < |history| && history[i].time > after :: history[i].key
  }

  /**
   When an attempt is let in, and must be: the client had fewer acceptances in
   the window than permitted, and it is live or there is room for one more.
   */
  lemma AnswerIsExact<K(!new)>(rules: Rules, history: seq<Attempt<K>>, key: K, now: int)
    requires forall i :: 0 <= i < |history| ==> history[i].time <= now
    ensures var active := Active(history, now - rules.window);
            Answer(rules, history, key, now) <==>
              && Between(history, key, now - rules.window, now) < rules.maximum
              && (key in active || |active| < rules.maximumKeys)
  {
    hide InWindow;
    WindowIsCounted(history, key, now, rules.window);
    forall k
      ensures InWindow(history, k, now, rules.window) != [] <==> k in Active(history, now - rules.window)
    {
      LiveIsActive(history, k, now, rules.window);
    }
    forall k | InWindow(history, k, now, rules.window) != []
      ensures k in KeysOf(history)
    {
      WindowHasKey(history, k, now, rules.window);
    }
    assert LiveKeys(history, now, rules.window) == Active(history, now - rules.window);
  }

  lemma {:induction false} LiveIsActive<K>(history: seq<Attempt<K>>, key: K, now: int, window: nat)
    ensures InWindow(history, key, now, window) != [] <==> key in Active(history, now - window)
  {
    if history != [] {
      var front, last := history[..|history| - 1], history[|history| - 1];
      LiveIsActive(front, key, now, window);
      assert history == front + [last];
      assert Active(history, now - window) == Active(front, now - window) + (if now - last.time < window then {last.key} else {});
    }
  }

  /** In no window of time does a client get more than the permitted number of acceptances. */
  lemma {:induction false} WindowIsBounded<K(!new)>(rules: Rules, history: seq<Attempt<K>>, key: K, upto: int)
    requires Ordered(history) && Admitted(rules, history)
    ensures Between(history, key, upto - rules.window, upto) <= rules.maximum
  {
    hide Admitted;
    if history != [] {
      var n := |history| - 1;
      var front, last := history[..n], history[n];
      AdmittedFront(rules, history, front, last);
      if last.key == key && upto - rules.window < last.time <= upto {
        BetweenIsInWindow(front, key, last.time, upto, rules.window);
      } else {
        WindowIsBounded(rules, front, key, upto);
      }
    }
  }

  lemma {:induction false} LiveKeysShrink<K(!new)>(history: seq<Attempt<K>>, now: int, later: int, window: nat)
    requires Ordered(history) && now <= later
    ensures LiveKeys(history, later, window) <= LiveKeys(history, now, window)
  {
    forall k | InWindow(history, k, later, window) != []
      ensures InWindow(history, k, now, window) != []
    {
      WindowMoves(history, k, now, later, window);
    }
  }

  /** At no time are more clients live than the limiter has room for. */
  lemma {:induction false} LiveKeysAreBounded<K(!new)>(rules: Rules, history: seq<Attempt<K>>, now: int)
    requires Ordered(history) && Admitted(rules, history)
    requires forall i :: 0 <= i < |history| ==> history[i].time <= now
    ensures |LiveKeys(history, now, rules.window)| <= rules.maximumKeys
  {
    hide InWindow, Admitted;
    if history == [] {
      assert LiveKeys(history, now, rules.window) == {};
    } else {
      var n := |history| - 1;
      var front, last := history[..n], history[n];
      assert front + [last] == history;
      AdmittedFront(rules, history, front, last);
      LiveKeysAreBounded(rules, front, last.time);
      LiveKeysShrink(history, last.time, now, rules.window);
      RoomForOneMore(rules, front, last);
      SubsetSize(LiveKeys(history, now, rules.window), LiveKeys(history, last.time, rules.window));
    }
  }

  lemma RoomForOneMore<K(!new)>(rules: Rules, front: seq<Attempt<K>>, last: Attempt<K>)
    requires Answer(rules, front, last.key, last.time)
    requires |LiveKeys(front, last.time, rules.window)| <= rules.maximumKeys
    ensures |LiveKeys(front + [last], last.time, rules.window)| <= rules.maximumKeys
  {
    hide InWindow;
    var before := LiveKeys(front, last.time, rules.window);
    LiveKeysOfLonger(front, last, rules.window);
    SubsetSize(LiveKeys(front + [last], last.time, rules.window), before + {last.key});
    if InWindow(front, last.key, last.time, rules.window) != [] {
      WindowHasKey(front, last.key, last.time, rules.window);
      assert before + {last.key} == before;
    }
  }

  lemma LiveKeysOfLonger<K(!new)>(front: seq<Attempt<K>>, last: Attempt<K>, window: nat)
    ensures LiveKeys(front + [last], last.time, window) <= LiveKeys(front, last.time, window) + {last.key}
  {
    var history := front + [last];
    assert history[..|front|] == front;
    forall k | k in LiveKeys(history, last.time, window) && k != last.key
      ensures k in LiveKeys(front, last.time, window)
    {
      assert InWindow(front, k, last.time, window) != [];
      WindowHasKey(front, k, last.time, window);
    }
  }

}
