/**
 * The time-windowed alert gate: a map from key to the time of the last
 * allowed call for that key, and a cooldown. A call for a key is allowed
 * when the key has never been allowed, or when strictly more than the
 * cooldown has elapsed since it was last allowed; only an allowed call
 * refreshes the stored time. The wall clock is passed in as `now`.
 */
module Dedup {

  import opened Detection

  /** The cooldown a deduplicator gets when none is given. */
  const DefaultCooldown: real := 5.0

  /** One call of `allow`: the key and the clock reading at that call. */
  datatype Call = Call(key: string, now: real)

  /** The decision of one call on a cache. */
  predicate Admits(cache: map<string, real>, cooldown: real, key: string, now: real)
  {
    key !in cache || now - cache[key] > cooldown
  }

  /** The cache after one call: refreshed at `key` when the call is admitted, otherwise untouched. */
  function Record(cache: map<string, real>, cooldown: real, key: string, now: real): (r: map<string, real>)
    ensures r.Keys == cache.Keys + {key}
    ensures r[key] == (if Admits(cache, cooldown, key, now) then now else cache[key])
    ensures forall k :: k in cache && k != key ==> r[k] == cache[k]
    ensures !Admits(cache, cooldown, key, now) ==> r == cache
  {
    if Admits(cache, cooldown, key, now) then cache[key := now] else cache
  }

  /** The cache after a sequence of calls, starting from `cache0`. */
  function Replay(cache0: map<string, real>, cooldown: real, calls: seq<Call>): map<string, real>
    decreases |calls|
  {
    if calls == [] then cache0
    else
      var c := calls[|calls| - 1];
      Record(Replay(cache0, cooldown, calls[..|calls| - 1]), cooldown, c.key, c.now)
  }

  /** The value `allow` returns at each call of a sequence, starting from `cache0`. */
  function Verdicts(cache0: map<string, real>, cooldown: real, calls: seq<Call>): (v: seq<bool>)
    ensures |v| == |calls|
  {
    seq(|calls|, j requires 0 <= j < |calls| =>
      Admits(Replay(cache0, cooldown, calls[..j]), cooldown, calls[j].key, calls[j].now))
  }

  /** One more call appends its own verdict and leaves the earlier verdicts as they were. */
  lemma VerdictsExtend(cache0: map<string, real>, cooldown: real, calls: seq<Call>, c: Call)
    ensures Verdicts(cache0, cooldown, calls + [c]) ==
            Verdicts(cache0, cooldown, calls) + [Admits(Replay(cache0, cooldown, calls), cooldown, c.key, c.now)]
  {
    var all := calls + [c];
    forall j | 0 <= j < |calls|
      ensures all[..j] == calls[..j]
    {
    }
    assert all[..|calls|] == calls;
  }

  /** A call's verdict depends only on the calls up to it: cutting later calls off keeps the earlier verdicts. */
  lemma VerdictsPrefix(cache0: map<string, real>, cooldown: real, calls: seq<Call>, n: nat)
    requires n <= |calls|
    ensures Verdicts(cache0, cooldown, calls[..n]) == Verdicts(cache0, cooldown, calls)[..n]
  {
    forall j | 0 <= j < n
      ensures calls[..n][..j] == calls[..j]
    {
    }
  }

  /** The subsequence of calls made with `key`. */
  function CallsFor(calls: seq<Call>, key: string): (r: seq<Call>)
    ensures |r| <= |calls|
    ensures forall c :: c in r ==> c in calls && c.key == key
    decreases |calls|
  {
    if calls == [] then []
    else
      var c := calls[|calls| - 1];
      CallsFor(calls[..|calls| - 1], key) + (if c.key == key then [c] else [])
  }

  /** The positions of the calls made with `key`, in increasing order. */
  function KeyPositions(calls: seq<Call>, key: string): seq<nat>
    decreases |calls|
  {
    if calls == [] then []
    else
      var n := |calls| - 1;
      KeyPositions(calls[..n], key) + (if calls[n].key == key then [n] else [])
  }

  /** The positions of the calls made with `key` increase and lie inside the calls. */
  lemma {:induction false} KeyPositionsIncreasing(calls: seq<Call>, key: string)
    ensures forall k :: 0 <= k < |KeyPositions(calls, key)| ==> KeyPositions(calls, key)[k] < |calls|
    ensures forall k, l :: 0 <= k < l < |KeyPositions(calls, key)| ==> KeyPositions(calls, key)[k] < KeyPositions(calls, key)[l]
    decreases |calls|
  {
    if calls != [] {
      KeyPositionsIncreasing(calls[..|calls| - 1], key);
    }
  }

  /**
   * `CallsFor` keeps the calls at the positions made with `key`: the k-th
   * call it keeps is the call at the k-th such position, and a position is
   * among them iff its call is made with `key`. With `KeyPositionsIncreasing`
   * this makes it the subsequence of the calls made with `key`.
   */
  lemma {:induction false} CallsForIsSelection(calls: seq<Call>, key: string)
    ensures |KeyPositions(calls, key)| == |CallsFor(calls, key)|
    ensures forall k :: 0 <= k < |KeyPositions(calls, key)| ==>
              KeyPositions(calls, key)[k] < |calls| && CallsFor(calls, key)[k] == calls[KeyPositions(calls, key)[k]]
    ensures forall i :: 0 <= i < |calls| ==> (i in KeyPositions(calls, key) <==> calls[i].key == key)
    decreases |calls|
  {
    if calls != [] {
      var n := |calls| - 1;
      var prev := calls[..n];
      CallsForIsSelection(prev, key);
      var pp, pc := KeyPositions(prev, key), CallsFor(prev, key);
      var pos, kept := KeyPositions(calls, key), CallsFor(calls, key);
      assert pos == pp + (if calls[n].key == key then [n] else []);
      assert kept == pc + (if calls[n].key == key then [calls[n]] else []);
      forall k | 0 <= k < |pos|
        ensures pos[k] < |calls| && kept[k] == calls[pos[k]]
      {
        if k < |pp| {
          assert pos[k] == pp[k] && kept[k] == pc[k] == prev[pp[k]];
        }
      }
      forall i | 0 <= i < |calls|
        ensures i in pos <==> calls[i].key == key
      {
        if i < n {
          assert prev[i] == calls[i];
        } else {
          assert n !in pp;
        }
      }
    }
  }

  /** No call made with `key` is missing from `CallsFor`. */
  lemma CallsForComplete(calls: seq<Call>, key: string)
    ensures forall c :: c in calls && c.key == key ==> c in CallsFor(calls, key)
  {
    CallsForIsSelection(calls, key);
    var pos := KeyPositions(calls, key);
    forall c | c in calls && c.key == key
      ensures c in CallsFor(calls, key)
    {
      var i :| 0 <= i < |calls| && calls[i] == c;
      var k :| 0 <= k < |pos| && pos[k] == i;
    }
  }

  /** The clock readings of the first `n` calls never go backwards. */
  predicate NonDecreasing(calls: seq<Call>, n: nat)
  {
    forall p, q :: 0 <= p <= q < n && q < |calls| ==> calls[p].now <= calls[q].now
  }

  /** A call exactly one cooldown after the last allowed one is still suppressed. */
  lemma BoundaryCallSuppressed(cache: map<string, real>, cooldown: real, key: string)
    requires key in cache
    ensures !Admits(cache, cooldown, key, cache[key] + cooldown)
    ensures Record(cache, cooldown, key, cache[key] + cooldown) == cache
  {
  }

  /** A key that was once recorded is never dropped; the key set only grows by the keys called. */
  lemma {:induction false} ReplayKeepsKeys(cache0: map<string, real>, cooldown: real, calls: seq<Call>)
    ensures cache0.Keys <= Replay(cache0, cooldown, calls).Keys
    ensures forall c :: c in calls ==> c.key in Replay(cache0, cooldown, calls)
    ensures forall k :: k in Replay(cache0, cooldown, calls) ==> k in cache0 || exists c :: c in calls && c.key == k
    decreases |calls|
  {
    if calls != [] {
      var prev := calls[..|calls| - 1];
      ReplayKeepsKeys(cache0, cooldown, prev);
      assert calls == prev + [calls[|calls| - 1]];
    }
  }

  /** The stored time for `key`, if any. */
  function Entry(cache: map<string, real>, key: string): (e: Option<real>)
    ensures e.Some? <==> key in cache
  {
    if key in cache then Some(cache[key]) else None
  }

  /** What one call does to the entry of `key` depends only on that entry and on whether the call is for `key`. */
  lemma RecordEntry(m1: map<string, real>, m2: map<string, real>, cooldown: real, key: string, c: Call)
    requires Entry(m1, key) == Entry(m2, key)
    ensures Entry(Record(m1, cooldown, c.key, c.now), key) ==
            (if c.key == key then Entry(Record(m2, cooldown, c.key, c.now), key) else Entry(m1, key))
  {
  }

  /**
   * Distinct keys never affect each other: the entry for `key` after any
   * interleaving of calls is the entry after only the calls made with `key`.
   */
  lemma {:induction false} KeysDoNotInterfere(cache0: map<string, real>, cooldown: real, calls: seq<Call>, key: string)
    ensures Entry(Replay(cache0, cooldown, calls), key) == Entry(Replay(cache0, cooldown, CallsFor(calls, key)), key)
    decreases |calls|
  {
    if calls != [] {
      var prev := calls[..|calls| - 1];
      var c := calls[|calls| - 1];
      KeysDoNotInterfere(cache0, cooldown, prev, key);
      var before := Replay(cache0, cooldown, prev);
      var beforeOnly := Replay(cache0, cooldown, CallsFor(prev, key));
      RecordEntry(before, beforeOnly, cooldown, key, c);
      if c.key == key {
        var only := CallsFor(prev, key) + [c];
        assert CallsFor(calls, key) == only;
        assert only[..|only| - 1] == CallsFor(prev, key);
      } else {
        assert CallsFor(calls, key) == CallsFor(prev, key);
      }
    }
  }

  /**
   * Whether a call is allowed is decided by the earlier calls with the same
   * key alone: calls for other keys, before or in between, never matter.
   */
  lemma VerdictDependsOnlyOnOwnKey(cache0: map<string, real>, cooldown: real, calls: seq<Call>, j: nat)
    requires j < |calls|
    ensures Verdicts(cache0, cooldown, calls)[j] ==
            Admits(Replay(cache0, cooldown, CallsFor(calls[..j], calls[j].key)), cooldown, calls[j].key, calls[j].now)
  {
    KeysDoNotInterfere(cache0, cooldown, calls[..j], calls[j].key);
  }

  /** One call never lowers a stored time below a bound that the call's own time also meets. */
  lemma RecordKeepsEntryAtLeast(cache: map<string, real>, cooldown: real, key: string, c: Call, t: real)
    requires key in cache && cache[key] >= t && c.now >= t
    ensures key in Record(cache, cooldown, c.key, c.now)
    ensures Record(cache, cooldown, c.key, c.now)[key] >= t
  {
  }

  /**
   * After an allowed call `i`, the stored time for its key is at least the
   * time of that call, as long as the clock does not go backwards up to then.
   */
  lemma {:induction false} EntryAfterAllowed(cache0: map<string, real>, cooldown: real, calls: seq<Call>, i: nat, n: nat)
    requires i < n <= |calls|
    requires NonDecreasing(calls, n)
    requires Verdicts(cache0, cooldown, calls)[i]
    ensures calls[i].key in Replay(cache0, cooldown, calls[..n])
    ensures Replay(cache0, cooldown, calls[..n])[calls[i].key] >= calls[i].now
    decreases n
  {
    var k := calls[i].key;
    var pre := calls[..n];
    assert pre[..n - 1] == calls[..n - 1];
    var before := Replay(cache0, cooldown, calls[..n - 1]);
    var c := calls[n - 1];
    assert Replay(cache0, cooldown, pre) == Record(before, cooldown, c.key, c.now);
    if n == i + 1 {
      assert Verdicts(cache0, cooldown, calls)[i] == Admits(before, cooldown, k, calls[i].now);
    } else {
      EntryAfterAllowed(cache0, cooldown, calls, i, n - 1);
      assert calls[i].now <= c.now;
      RecordKeepsEntryAtLeast(before, cooldown, k, c, calls[i].now);
    }
  }

  /**
   * For one key and a clock that does not go backwards up to the later
   * call, any two allowed calls are strictly more than one cooldown apart.
   */
  lemma AllowedCallsSpacedByCooldown(cache0: map<string, real>, cooldown: real, calls: seq<Call>, i: nat, j: nat)
    requires i < j < |calls|
    requires NonDecreasing(calls, j + 1)
    requires calls[i].key == calls[j].key
    requires Verdicts(cache0, cooldown, calls)[i] && Verdicts(cache0, cooldown, calls)[j]
    ensures calls[j].now - calls[i].now > cooldown
  {
    EntryAfterAllowed(cache0, cooldown, calls, i, j);
  }

  class EventDeduplicator {
    var cooldown: real
    var cache: map<string, real>

    constructor (cooldown: real := DefaultCooldown)
      ensures this.cooldown == cooldown && cache == map[]
    {
      this.cooldown := cooldown;
      cache := map[];
    }

    /** Decide whether an alert for `key` at time `now` goes through, and record it if so. */
    method Allow(key: string, now: real) returns (allowed: bool)
      modifies this`cache
      ensures allowed == Admits(old(cache), cooldown, key, now)
      ensures allowed ==> cache == old(cache)[key := now]
      ensures !allowed ==> cache == old(cache)
      ensures cache == Record(old(cache), cooldown, key, now)
    {
      if key !in cache || now - cache[key] > cooldown {
        cache := cache[key := now];
        return true;
      }
      return false;
    }
  }
}
