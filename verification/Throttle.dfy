/** The denial throttle of main.go: a last-seen map, pruned and reset to stay bounded. */
module Throttle {

  /** Times are nanoseconds. */
  const SECOND := 1000000000
  const MINUTE := 60 * SECOND
  const LIMIT := 10000

  type Seen = map<string, int>

  /** A missing key reads as the zero time, which is more than a second ago. */
  predicate Allows(m: Seen, key: string, now: int) {
    key !in m || now - m[key] >= SECOND
  }

  function Pruned(m: Seen, now: int): Seen {
    map k | k in m && now - m[k] <= MINUTE :: m[k]
  }

  /** Even pruned, the map with the new entry is over the limit. */
  predicate Floods(m: Seen, key: string, now: int) {
    Allows(m, key, now) && |m[key := now]| > LIMIT && |Pruned(m[key := now], now)| > LIMIT
  }

  function Next(m: Seen, key: string, now: int): Seen {
    if !Allows(m, key, now) then m
    else if |m[key := now]| <= LIMIT then m[key := now]
    else if Floods(m, key, now) then map[key := now]
    else Pruned(m[key := now], now)
  }

  class Throttle {
    var last: Seen

    method Allow(key: string, now: int) returns (ok: bool)
      modifies this
      ensures ok == Allows(old(last), key, now) && last == Next(old(last), key, now)
    {
      if key in last && now - last[key] < SECOND {
        return false;
      }
      last := last[key := now];
      if |last| > LIMIT {
        Prune(now);
        if |last| > LIMIT {
          last := map[key := now];
        }
      }
      ok := true;
    }

    /** Deletes the entries that are more than a minute old, in any order. */
    method Prune(now: int)
      modifies this
      ensures last == Pruned(old(last), now)
    {
      var todo := last.Keys;
      while todo != {}
        invariant todo <= old(last).Keys
        invariant last == map k | k in old(last) && (k in todo || now - old(last)[k] <= MINUTE) :: old(last)[k]
        decreases |todo|
      {
        var k :| k in todo;
        todo := todo - {k};
        if now - last[k] > MINUTE {
          last := last - {k};
        }
      }
    }
  }

  /** The map is never left over the limit, whatever it was before. */
  lemma Bounded(m: Seen, key: string, now: int)
    requires |m| <= LIMIT
    ensures |Next(m, key, now)| <= LIMIT
  {
    if Floods(m, key, now) { assert |map[key := now]| == 1; }
  }

  // ---- Runs ----------------------------------------------------------------

  datatype Call = Call(key: string, at: int)

  ghost predicate Monotone(calls: seq<Call>) {
    forall i, j :: 0 <= i <= j < |calls| ==> calls[i].at <= calls[j].at
  }

  /** The throttle's map after these calls. */
  function Last(calls: seq<Call>): Seen {
    if calls == [] then map[] else
      var c := calls[|calls| - 1];
      Next(Last(calls[..|calls| - 1]), c.key, c.at)
  }

  predicate Allowed(calls: seq<Call>, i: nat)
    requires i < |calls|
  {
    Allows(Last(calls[..i]), calls[i].key, calls[i].at)
  }

  /** Call i found 10001 fresh keys and started over. */
  predicate Reset(calls: seq<Call>, i: nat)
    requires i < |calls|
  {
    Floods(Last(calls[..i]), calls[i].key, calls[i].at)
  }

  /** The reference: an unbounded map that is never pruned, only emptied when told to. */
  function Reference(calls: seq<Call>): Seen {
    if calls == [] then map[] else
      var n, m := |calls| - 1, Reference(calls[..|calls| - 1]);
      if !Allows(m, calls[n].key, calls[n].at) then m
      else if Reset(calls, n) then map[calls[n].key := calls[n].at]
      else m[calls[n].key := calls[n].at]
  }

  lemma LastStep(calls: seq<Call>, n: nat)
    requires n < |calls|
    ensures Last(calls[..n + 1]) == Next(Last(calls[..n]), calls[n].key, calls[n].at)
  {
    assert calls[..n + 1][..n] == calls[..n];
  }

  lemma ReferenceStep(calls: seq<Call>, n: nat)
    requires n < |calls|
    ensures var m := Reference(calls[..n]);
            Reference(calls[..n + 1]) ==
              if !Allows(m, calls[n].key, calls[n].at) then m
              else if Reset(calls, n) then map[calls[n].key := calls[n].at]
              else m[calls[n].key := calls[n].at]
  {
    assert calls[..n + 1][..n] == calls[..n];
  }

  /** `m` is `full` without some entries that are more than a minute old. */
  ghost predicate Forgets(m: Seen, full: Seen, now: int) {
    && (forall k :: k in m ==> k in full && m[k] == full[k])
    && (forall k :: k in full && k !in m ==> now - full[k] > MINUTE)
  }

  lemma ForgettingIsInvisible(m: Seen, full: Seen, key: string, before: int, now: int)
    requires Forgets(m, full, before) && before <= now
    ensures Allows(m, key, now) == Allows(full, key, now)
    ensures Forgets(m, full, now)
  {
  }

  lemma ForgetsStep(m: Seen, full: Seen, key: string, now: int)
    requires Forgets(m, full, now)
    ensures Allows(m, key, now) && !Floods(m, key, now) ==> Forgets(Next(m, key, now), full[key := now], now)
  {
  }

  /** Pruning is invisible: the bounded map decides every call as the unbounded one does. */
  lemma {:induction false} PruningIsInvisible(calls: seq<Call>, n: nat)
    requires Monotone(calls) && n < |calls|
    ensures Allowed(calls, n) == Allows(Reference(calls[..n]), calls[n].key, calls[n].at)
    ensures Forgets(Last(calls[..n]), Reference(calls[..n]), calls[n].at)
  {
    if n > 0 {
      PruningIsInvisible(calls, n - 1);
      ForgetsCall(calls, n - 1);
      assert calls[n - 1].at <= calls[n].at;
      ForgettingIsInvisible(Last(calls[..n]), Reference(calls[..n]), calls[n].key, calls[n - 1].at, calls[n].at);
    }
  }

  lemma {:induction false} ForgetsCall(calls: seq<Call>, n: nat)
    requires n < |calls| && Forgets(Last(calls[..n]), Reference(calls[..n]), calls[n].at)
    requires Allowed(calls, n) == Allows(Reference(calls[..n]), calls[n].key, calls[n].at)
    ensures Forgets(Last(calls[..n + 1]), Reference(calls[..n + 1]), calls[n].at)
  {
    LastStep(calls, n);
    ReferenceStep(calls, n);
    ForgetsStep(Last(calls[..n]), Reference(calls[..n]), calls[n].key, calls[n].at);
  }

  /** Without a reset in between, an allowed key stays remembered by the reference. */
  lemma {:induction false} Remembered(calls: seq<Call>, i: nat, j: nat)
    requires Monotone(calls) && i < j <= |calls| && Allowed(calls, i)
    requires forall r :: i < r < j ==> !Reset(calls, r)
    ensures calls[i].key in Reference(calls[..j]) && Reference(calls[..j])[calls[i].key] >= calls[i].at
  {
    ReferenceStep(calls, j - 1);
    if j == i + 1 {
      PruningIsInvisible(calls, i);
    } else {
      Remembered(calls, i, j - 1);
      assert calls[i].at <= calls[j - 1].at;
    }
  }

  /** A key that was let through within the last minute is still remembered, unless the map was
      reset since: pruning forgets nothing younger. */
  lemma {:induction false} RememberedForAMinute(calls: seq<Call>, i: nat, j: nat)
    requires Monotone(calls) && i < j < |calls| && Allowed(calls, i) && calls[j].at - calls[i].at <= 60000000000
    requires forall r :: i < r < j ==> !Reset(calls, r)
    ensures calls[i].key in Last(calls[..j])
  {
    Remembered(calls, i, j);
    PruningIsInvisible(calls, j);
  }

  /** One key gets through twice within a second only if the map was reset in between. */
  lemma TwoAllowsNeedReset(calls: seq<Call>, i: nat, j: nat)
    requires Monotone(calls) && i < j < |calls| && calls[i].key == calls[j].key
    requires Allowed(calls, i) && Allowed(calls, j) && calls[j].at - calls[i].at < 1000000000
    ensures exists r :: i < r < j && Reset(calls, r)
  {
    PruningIsInvisible(calls, j);
    if forall r :: i < r < j ==> !Reset(calls, r) {
      Remembered(calls, i, j);
    }
  }

  // ---- What a reset takes --------------------------------------------------

  /** `key` was allowed at time `at` by one of the first n calls. */
  ghost predicate AllowedAt(calls: seq<Call>, n: nat, key: string, at: int)
    requires n <= |calls|
  {
    exists q :: 0 <= q < n && calls[q] == Call(key, at) && Allowed(calls, q)
  }

  lemma NextEntry(m: Seen, key: string, now: int, k: string)
    requires k in Next(m, key, now)
    ensures (k in m && Next(m, key, now)[k] == m[k]) || (k == key && Next(m, key, now)[k] == now && Allows(m, key, now))
  {
  }

  lemma {:induction false} EntriesWereAllowed(calls: seq<Call>, n: nat, k: string)
    requires n <= |calls| && k in Last(calls[..n])
    ensures AllowedAt(calls, n, k, Last(calls[..n])[k])
  {
    if n > 0 {
      var m := Last(calls[..n - 1]);
      if k in m && Last(calls[..n])[k] == m[k] {
        EntriesWereAllowed(calls, n - 1, k);
        AllowedEarlier(calls, n - 1, k, m[k]);
      } else {
        NewEntry(calls, n - 1, k);
      }
    }
  }

  lemma {:induction false} NewEntry(calls: seq<Call>, n: nat, k: string)
    requires n < |calls| && k in Last(calls[..n + 1])
    requires !(k in Last(calls[..n]) && Last(calls[..n + 1])[k] == Last(calls[..n])[k])
    ensures AllowedAt(calls, n + 1, k, Last(calls[..n + 1])[k])
  {
    LastStep(calls, n);
    NextEntry(Last(calls[..n]), calls[n].key, calls[n].at, k);
    assert calls[n] == Call(k, Last(calls[..n + 1])[k]) && Allowed(calls, n);
  }

  lemma AllowedEarlier(calls: seq<Call>, n: nat, key: string, at: int)
    requires n < |calls| && AllowedAt(calls, n, key, at)
    ensures AllowedAt(calls, n + 1, key, at)
  {
    var q :| 0 <= q < n && calls[q] == Call(key, at) && Allowed(calls, q);
    assert 0 <= q < n + 1 && Allowed(calls, q);
  }

  /** Only repeats are refused: less than a second before a refused call, the same key was let
      through. So a key that has been quiet for a second always passes. */
  lemma RefusedMeansRecent(calls: seq<Call>, i: nat)
    requires i < |calls| && !Allowed(calls, i)
    ensures exists q ::
              && 0 <= q < i && calls[q].key == calls[i].key && Allowed(calls, q)
              && calls[i].at - calls[q].at < 1000000000
  {
    var m, k := Last(calls[..i]), calls[i].key;
    EntriesWereAllowed(calls, i, k);
    var q :| 0 <= q < i && calls[q] == Call(k, m[k]) && Allowed(calls, q);
    assert 0 <= q < i && calls[q].key == k && Allowed(calls, q);
  }

  /** Some call up to r, at most a minute before it, let `key` through. */
  ghost predicate LatelyAllowed(calls: seq<Call>, r: nat, key: string)
    requires r < |calls|
  {
    exists q :: 0 <= q <= r && calls[q].key == key && Allowed(calls, q) && calls[r].at - calls[q].at <= 60000000000
  }

  /** A reset means a flood: 10001 distinct keys were allowed within the minute before it. */
  lemma ResetMeansFlood(calls: seq<Call>, r: nat) returns (keys: set<string>)
    requires r < |calls| && Reset(calls, r)
    ensures |keys| >= 10001
    ensures forall k :: k in keys ==> LatelyAllowed(calls, r, k)
  {
    var m, c := Last(calls[..r]), calls[r];
    keys := Pruned(m[c.key := c.at], c.at).Keys;
    forall k | k in keys ensures LatelyAllowed(calls, r, k) {
      if k == c.key {
        assert calls[r].key == k && Allowed(calls, r);
      } else {
        EntriesWereAllowed(calls, r, k);
        var q :| 0 <= q < r && calls[q] == Call(k, m[k]) && Allowed(calls, q);
        assert 0 <= q <= r && calls[q].key == k && Allowed(calls, q);
      }
    }
  }

  /** Over every run the map stays within the limit. */
  lemma {:induction false} RunBounded(calls: seq<Call>)
    ensures |Last(calls)| <= 10000
  {
    if calls != [] {
      var init, c := calls[..|calls| - 1], calls[|calls| - 1];
      RunBounded(init);
      Bounded(Last(init), c.key, c.at);
    }
  }
}
