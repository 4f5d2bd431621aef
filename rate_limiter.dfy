/**
 * The advisory rate limiter of frontend-config.js: a sliding one-minute
 * window of admitted request timestamps (milliseconds). The script keeps
 * them as the keys of a JavaScript `Map` whose values are all `true`; a
 * `Map` iterates in insertion order and holds each key once, so the model
 * keeps the keys as a sequence without duplicates, oldest insertion first.
 * The clock is the `now` argument.
 */
module RateLimiting {
  import Config

  /** Length of the sliding window in milliseconds. */
  const WindowMs := 60000

  /** Each timestamp is a key at most once. */
  ghost predicate Distinct(s: seq<int>) {
    forall i, j :: 0 <= i < j < |s| ==> s[i] != s[j]
  }

  /**
   * The entries that survive the clean-up loop: every key not strictly
   * older than `cutoff`, in their original order.
   */
  function Prune(requests: seq<int>, cutoff: int): (live: seq<int>)
    ensures |live| <= |requests|
    decreases |requests|
  {
    if requests == [] then []
    else (if requests[0] < cutoff then [] else [requests[0]]) + Prune(requests[1..], cutoff)
  }

  /** The clean-up keeps exactly the keys not older than `cutoff`. */
  lemma {:induction false} PruneMembers(requests: seq<int>, cutoff: int)
    ensures forall t :: t in Prune(requests, cutoff) <==> t in requests && cutoff <= t
    decreases |requests|
  {
    if requests != [] {
      PruneMembers(requests[1..], cutoff);
      assert requests == [requests[0]] + requests[1..];
    }
  }

  /** Pruning a concatenation prunes each part; this is what lets the loop prune one key at a time. */
  lemma {:induction false} PruneAppend(a: seq<int>, b: seq<int>, cutoff: int)
    ensures Prune(a + b, cutoff) == Prune(a, cutoff) + Prune(b, cutoff)
    decreases |a|
  {
    if a == [] {
      assert a + b == b;
    } else {
      var head := if a[0] < cutoff then [] else [a[0]];
      assert (a + b)[0] == a[0];
      assert (a + b)[1..] == a[1..] + b;
      PruneAppend(a[1..], b, cutoff);
      calc {
        Prune(a + b, cutoff);
        head + Prune(a[1..] + b, cutoff);
        head + (Prune(a[1..], cutoff) + Prune(b, cutoff));
        (head + Prune(a[1..], cutoff)) + Prune(b, cutoff);
      }
    }
  }

  /** Visiting one more key of the clean-up loop keeps it or drops it. */
  lemma PruneStep(s: seq<int>, v: nat, cutoff: int)
    requires v < |s|
    ensures Prune(s[..v + 1], cutoff) == Prune(s[..v], cutoff) + (if s[v] < cutoff then [] else [s[v]])
  {
    assert s[..v + 1] == s[..v] + [s[v]];
    PruneAppend(s[..v], [s[v]], cutoff);
    assert [s[v]][1..] == [];
  }

  /**
   * One turn of the clean-up loop: with the first `visited` keys of `start`
   * pruned into `requests[..i]`, the cursor sits on `start[visited]`, and
   * deleting it (when stale) or stepping over it (when live) prunes one key more.
   */
  lemma PruneLoopStep(start: seq<int>, visited: nat, cutoff: int, requests: seq<int>, i: nat)
    requires visited < |start|
    requires requests == Prune(start[..visited], cutoff) + start[visited..]
    requires i == |Prune(start[..visited], cutoff)|
    ensures i < |requests| && requests[i] == start[visited]
    ensures start[visited] < cutoff ==>
              && requests[..i] + requests[i + 1..] == Prune(start[..visited + 1], cutoff) + start[visited + 1..]
              && i == |Prune(start[..visited + 1], cutoff)|
    ensures cutoff <= start[visited] ==>
              && requests == Prune(start[..visited + 1], cutoff) + start[visited + 1..]
              && i + 1 == |Prune(start[..visited + 1], cutoff)|
  {
    var kept := Prune(start[..visited], cutoff);
    PruneStep(start, visited, cutoff);
    assert requests[..i] == kept;
    assert requests[i + 1..] == start[visited + 1..];
    if cutoff <= start[visited] {
      assert requests == (kept + [start[visited]]) + start[visited + 1..];
    }
  }

  /** Pruning keeps the keys distinct. */
  lemma {:induction false} PruneDistinct(requests: seq<int>, cutoff: int)
    requires Distinct(requests)
    ensures Distinct(Prune(requests, cutoff))
    decreases |requests|
  {
    if requests != [] {
      PruneDistinct(requests[1..], cutoff);
      PruneMembers(requests[1..], cutoff);
      assert requests[0] !in requests[1..];
    }
  }

  /** With a cutoff no later than every key, nothing is removed. */
  lemma {:induction false} PruneNothingStale(requests: seq<int>, cutoff: int)
    requires forall t :: t in requests ==> cutoff <= t
    ensures Prune(requests, cutoff) == requests
    decreases |requests|
  {
    if requests != [] {
      assert forall t :: t in requests[1..] ==> t in requests;
      PruneNothingStale(requests[1..], cutoff);
      assert requests[0] in requests;
      assert requests == [requests[0]] + requests[1..];
    }
  }

  /** With a cutoff later than every key, everything is removed. */
  lemma {:induction false} PruneAllStale(requests: seq<int>, cutoff: int)
    requires forall t :: t in requests ==> t < cutoff
    ensures Prune(requests, cutoff) == []
    decreases |requests|
  {
    if requests != [] {
      assert forall t :: t in requests[1..] ==> t in requests;
      PruneAllStale(requests[1..], cutoff);
      assert requests[0] in requests;
    }
  }

  /**
   * One `canMakeRequest()` at time `now`: prune, then admit and record `now`
   * exactly when fewer than `maxRequests` entries remain. `Map.set` on a key
   * already present keeps its position and the size.
   */
  function Admit(requests: seq<int>, maxRequests: nat, now: int): (bool, seq<int>) {
    var live := Prune(requests, now - WindowMs);
    if |live| < maxRequests then (true, if now in live then live else live + [now])
    else (false, live)
  }

  /** `requests.size <= maxRequests` and distinct keys are preserved by every call. */
  lemma AdmitKeepsValid(requests: seq<int>, maxRequests: nat, now: int)
    requires Distinct(requests) && |requests| <= maxRequests
    ensures Distinct(Admit(requests, maxRequests, now).1)
    ensures |Admit(requests, maxRequests, now).1| <= maxRequests
  {
    PruneDistinct(requests, now - WindowMs);
  }

  /**
   * The answer is "fewer than the cap are at most a minute old"; afterwards
   * the keys other than `now` are exactly those at most a minute old, and
   * `now` is present only if the call was admitted or it already was.
   */
  lemma AdmitEffect(requests: seq<int>, maxRequests: nat, now: int)
    ensures var (allowed, next) := Admit(requests, maxRequests, now);
      && (allowed <==> |Prune(requests, now - WindowMs)| < maxRequests)
      && (forall t :: t != now ==> (t in next <==> t in requests && now - WindowMs <= t))
      && (now in next <==> allowed || now in requests)
      && (!allowed ==> next == Prune(requests, now - WindowMs))
  {
    PruneMembers(requests, now - WindowMs);
  }

  /** A second call in the same millisecond leaves the window exactly as the first left it. */
  lemma SameMillisecond(requests: seq<int>, maxRequests: nat, now: int)
    ensures var (_, first) := Admit(requests, maxRequests, now);
            Admit(first, maxRequests, now).1 == first
  {
    var (allowed, first) := Admit(requests, maxRequests, now);
    PruneMembers(requests, now - WindowMs);
    PruneNothingStale(first, now - WindowMs);
  }

  /** After a quiet minute every old entry is gone and a call is admitted. */
  lemma QuietMinuteFreesCapacity(requests: seq<int>, maxRequests: nat, now: int)
    requires maxRequests > 0
    requires forall t :: t in requests ==> t < now - WindowMs
    ensures Admit(requests, maxRequests, now) == (true, [now])
  {
    PruneAllStale(requests, now - WindowMs);
    assert Prune(requests, now - WindowMs) + [now] == [now];
  }

  /** Successive calls at the given times: the answers and the final window. */
  function Replay(requests: seq<int>, maxRequests: nat, times: seq<int>): (r: (seq<bool>, seq<int>))
    ensures |r.0| == |times|
    decreases |times|
  {
    if times == [] then ([], requests)
    else
      var (allowed, next) := Admit(requests, maxRequests, times[0]);
      var (answers, final) := Replay(next, maxRequests, times[1..]);
      ([allowed] + answers, final)
  }

  function Min(a: int, b: int): int {
    if a <= b then a else b
  }

  /**
   * A burst of calls at increasing times, later than every recorded entry
   * and all within one minute of a bound `low` on those entries: call `i` is
   * admitted exactly when `|requests| + i < maxRequests`. From an empty
   * window the first `maxRequests` calls are admitted and every later one is
   * denied without being recorded.
   */
  lemma {:induction false} BurstWithinAMinute(requests: seq<int>, maxRequests: nat, times: seq<int>, low: int)
    requires |requests| <= maxRequests
    requires forall t :: t in requests ==> low <= t
    requires forall t, i :: t in requests && 0 <= i < |times| ==> t < times[i]
    requires forall i, j :: 0 <= i < j < |times| ==> times[i] < times[j]
    requires forall i :: 0 <= i < |times| ==> low <= times[i] <= low + WindowMs
    ensures var (answers, final) := Replay(requests, maxRequests, times);
            && (forall i :: 0 <= i < |times| ==> (answers[i] <==> |requests| + i < maxRequests))
            && |final| == Min(|requests| + |times|, maxRequests)
    decreases |times|
  {
    if times != [] {
      var now := times[0];
      PruneNothingStale(requests, now - WindowMs);
      var (allowed, next) := Admit(requests, maxRequests, now);
      assert now !in requests;
      assert |next| == if allowed then |requests| + 1 else |requests|;
      assert forall t :: t in next ==> t in requests || t == now;
      BurstWithinAMinute(next, maxRequests, times[1..], low);
    }
  }

  /** `RateLimiter`: the window of admitted timestamps and the per-minute cap. */
  class RateLimiter {
    var requests: seq<int>
    var maxRequests: nat

    /** Never more recorded requests than the cap, each timestamp once. */
    ghost predicate Valid()
      reads this
    {
      Distinct(requests) && |requests| <= maxRequests
    }

    /** The cap comes from `SECURITY.maxRequestsPerMinute`. */
    constructor (security: Config.SecuritySettings)
      ensures Valid()
      ensures requests == [] && maxRequests == security.maxRequestsPerMinute
    {
      requests := [];
      maxRequests := security.maxRequestsPerMinute;
    }

    /** `canMakeRequest()` at time `now`: the clean-up loop deletes stale keys in place. */
    method CanMakeRequest(now: int) returns (allowed: bool)
      requires Valid()
      modifies this`requests
      ensures Valid()
      ensures (allowed, requests) == Admit(old(requests), maxRequests, now)
    {
      ghost var start := requests;
      var minuteAgo := now - WindowMs;
      var i := 0;
      ghost var visited := 0;
      while i < |requests|
        invariant 0 <= visited <= |start|
        invariant requests == Prune(start[..visited], minuteAgo) + start[visited..]
        invariant i == |Prune(start[..visited], minuteAgo)|
        decreases |requests| - i
      {
        PruneLoopStep(start, visited, minuteAgo, requests, i);
        if requests[i] < minuteAgo {
          requests := requests[..i] + requests[i + 1..];
        } else {
          i := i + 1;
        }
        visited := visited + 1;
      }
      assert visited == |start| && start[..visited] == start;
      assert requests == Prune(start, minuteAgo);
      ghost var expected := Admit(start, maxRequests, now);
      AdmitKeepsValid(start, maxRequests, now);
      if |requests| < maxRequests {
        if now !in requests {
          requests := requests + [now];
        }
        allowed := true;
      } else {
        allowed := false;
      }
      assert (allowed, requests) == expected;
    }

    /** `getRemainingRequests()`: reads the window without pruning it. */
    function RemainingRequests(): (remaining: int)
      requires Valid()
      reads this
      ensures remaining == maxRequests - |requests|
      ensures 0 <= remaining <= maxRequests
    {
      if maxRequests - |requests| > 0 then maxRequests - |requests| else 0
    }
  }
}
