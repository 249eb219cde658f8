/**
 * `RateLimiterApi`: a per-user sliding window over the times of the
 * requests accepted in the last minute, kept in the module-level map
 * `userApiUsage`. The user id and the clock reading `Date.now()` are inputs.
 */
module RateLimiter {

  const WindowMs: int := 60 * 1000
  const MaxRequests: nat := 100

  /** `requests.filter(time => now - time < windowMs)`: the times still inside the window, in order. */
  function Recent(ts: seq<int>, now: int): (r: seq<int>)
    ensures |r| <= |ts|
    ensures forall t :: t in r <==> t in ts && now - t < WindowMs
  {
    if ts == [] then []
    else
      var init, last := ts[..|ts| - 1], ts[|ts| - 1];
      assert ts == init + [last];
      Recent(init, now) + (if now - last < WindowMs then [last] else [])
  }

  /** Times in non-decreasing order, as a clock that never goes back produces them. */
  predicate Sorted(ts: seq<int>) {
    forall i, j | 0 <= i < j < |ts| :: ts[i] <= ts[j]
  }

  /** On times in order, the filter drops an oldest part and keeps the rest untouched. */
  lemma {:induction false} RecentIsSuffix(ts: seq<int>, now: int)
    requires Sorted(ts)
    ensures Recent(ts, now) == ts[|ts| - |Recent(ts, now)|..]
  {
    if ts != [] {
      var init, last := ts[..|ts| - 1], ts[|ts| - 1];
      RecentIsSuffix(init, now);
      RecentSnoc(init, last, now);
      assert ts == init + [last];
      if now - last < WindowMs {
        SuffixSnoc(init, last, |Recent(init, now)|);
      } else {
        OlderOutside(ts, now);
      }
    }
  }

  /** Appending to a list extends each of its suffixes by the same element. */
  lemma SuffixSnoc(init: seq<int>, last: int, m: nat)
    requires m <= |init|
    ensures (init + [last])[|init| - m..] == init[|init| - m..] + [last]
  {
  }

  /** On times in order, once the newest is outside the window so are all the others. */
  lemma OlderOutside(ts: seq<int>, now: int)
    requires Sorted(ts) && ts != [] && now - ts[|ts| - 1] >= WindowMs
    ensures Recent(ts[..|ts| - 1], now) == []
  {
    var init := ts[..|ts| - 1];
    forall t | t in init ensures now - t >= WindowMs {
      var i :| 0 <= i < |init| && init[i] == t;
      assert ts[i] <= ts[|ts| - 1];
    }
    RecentNone(init, now);
  }

  lemma {:induction false} RecentNone(ts: seq<int>, now: int)
    requires forall t | t in ts :: now - t >= WindowMs
    ensures Recent(ts, now) == []
  {
    if ts != [] {
      var init, last := ts[..|ts| - 1], ts[|ts| - 1];
      assert ts == init + [last];
      assert last in ts;
      assert forall t | t in init :: t in ts;
      RecentNone(init, now);
      RecentSnoc(init, last, now);
    }
  }

  /** Filtering at a later time what was filtered at an earlier one is filtering once, at the later time. */
  lemma {:induction false} RecentAgain(ts: seq<int>, w: int, now: int)
    requires w <= now
    ensures Recent(Recent(ts, w), now) == Recent(ts, now)
  {
    if ts != [] {
      var init, last := ts[..|ts| - 1], ts[|ts| - 1];
      RecentAgain(init, w, now);
      assert ts == init + [last];
      RecentSnoc(init, last, w);
      RecentSnoc(init, last, now);
      if w - last < WindowMs {
        assert Recent(ts, w) == Recent(init, w) + [last];
        RecentSnoc(Recent(init, w), last, now);
      } else {
        assert Recent(ts, w) == Recent(init, w);
        assert Recent(ts, now) == Recent(init, now);
      }
    }
  }

  lemma RecentSnoc(ts: seq<int>, t: int, now: int)
    ensures Recent(ts + [t], now) == Recent(ts, now) + (if now - t < WindowMs then [t] else [])
  {
    assert (ts + [t])[..|ts|] == ts;
  }

  /** How many of the times fall in the span of one window starting at `s`. */
  function InWindow(ts: seq<int>, s: int): (n: nat)
    ensures n <= |ts|
  {
    if ts == [] then 0
    else
      var last := ts[|ts| - 1];
      InWindow(ts[..|ts| - 1], s) + (if s <= last < s + WindowMs then 1 else 0)
  }

  /** Times no later than `now`, in a window that contains `now`, are all among the recent ones. */
  lemma {:induction false} InWindowWithinRecent(ts: seq<int>, s: int, now: int)
    requires forall i | 0 <= i < |ts| :: ts[i] <= now
    requires s <= now < s + WindowMs
    ensures InWindow(ts, s) <= |Recent(ts, now)|
  {
    if ts != [] {
      InWindowWithinRecent(ts[..|ts| - 1], s, now);
    }
  }

  /** Every user's accepted requests number at most 100 in any one-minute span. */
  ghost predicate WindowBound(accepted: map<string, seq<int>>) {
    forall u, s | u in accepted :: InWindow(accepted[u], s) <= MaxRequests
  }

  /**
   * What a clock that never goes back guarantees: each stored list is the
   * user's accepted requests filtered at the time it was written, no accepted
   * request is later than that time, and every window holds at most 100.
   */
  ghost predicate Tracked(usage: map<string, seq<int>>, accepted: map<string, seq<int>>, written: map<string, int>, clock: int) {
    && usage.Keys == accepted.Keys == written.Keys
    && StoredFiltered(usage, accepted, written)
    && (forall u | u in written :: written[u] <= clock)
    && AllSorted(accepted)
    && NoneLater(accepted, written)
    && WindowBound(accepted)
  }

  /** Each stored list is the accepted requests filtered at the time it was written. */
  ghost predicate StoredFiltered(usage: map<string, seq<int>>, accepted: map<string, seq<int>>, written: map<string, int>) {
    forall u | u in usage && u in accepted && u in written :: usage[u] == Recent(accepted[u], written[u])
  }

  ghost predicate AllSorted(accepted: map<string, seq<int>>) {
    forall u | u in accepted :: Sorted(accepted[u])
  }

  /** No accepted request is later than the time its list was written. */
  ghost predicate NoneLater(accepted: map<string, seq<int>>, written: map<string, int>) {
    forall u, i | u in accepted && u in written && 0 <= i < |accepted[u]| :: accepted[u][i] <= written[u]
  }

  function StoredIn(usage: map<string, seq<int>>, user: string): seq<int> {
    if user in usage then usage[user] else []
  }

  /** Under a steady clock, the pruned list is the user's accepted requests of the last minute, all no later than now. */
  lemma SteadyPrune(usage: map<string, seq<int>>, accepted: map<string, seq<int>>, written: map<string, int>, clock: int, user: string, now: int)
    requires Tracked(usage, accepted, written, clock) && clock <= now
    ensures Recent(StoredIn(usage, user), now) == Recent(StoredIn(accepted, user), now)
    ensures forall i | 0 <= i < |StoredIn(accepted, user)| :: StoredIn(accepted, user)[i] <= now
  {
    if user in usage {
      RecentAgain(accepted[user], written[user], now);
    }
  }

  /** A refused call writes nothing; a later clock reading keeps the guarantees. */
  lemma RefuseKeepsTracked(usage: map<string, seq<int>>, accepted: map<string, seq<int>>, written: map<string, int>, clock: int, now: int)
    requires Tracked(usage, accepted, written, clock) && clock <= now
    ensures Tracked(usage, accepted, written, now)
  {
  }

  /** Accepting `now` when fewer than 100 recent requests remain keeps every guarantee. */
  lemma AcceptKeepsTracked(usage: map<string, seq<int>>, accepted: map<string, seq<int>>, written: map<string, int>, clock: int, user: string, now: int)
    requires Tracked(usage, accepted, written, clock) && clock <= now
    requires |Recent(StoredIn(usage, user), now)| < MaxRequests
    ensures Tracked(
      usage[user := Recent(StoredIn(usage, user), now) + [now]], accepted[user := StoredIn(accepted, user) + [now]],
      written[user := now], now)
  {
    SteadyPrune(usage, accepted, written, clock, user, now);
    AcceptKeepsStored(usage, accepted, written, user, now);
    AcceptKeepsSorted(accepted, user, now);
    AcceptKeepsNoneLater(accepted, written, user, now);
    AcceptKeepsWindows(accepted, user, now);
    TrackedIntro(
      usage[user := Recent(StoredIn(usage, user), now) + [now]], accepted[user := StoredIn(accepted, user) + [now]],
      written[user := now], now);
  }

  lemma TrackedIntro(usage: map<string, seq<int>>, accepted: map<string, seq<int>>, written: map<string, int>, clock: int)
    requires usage.Keys == accepted.Keys == written.Keys
    requires StoredFiltered(usage, accepted, written)
    requires forall u | u in written :: written[u] <= clock
    requires AllSorted(accepted) && NoneLater(accepted, written) && WindowBound(accepted)
    ensures Tracked(usage, accepted, written, clock)
  {
  }

  lemma AcceptKeepsStored(usage: map<string, seq<int>>, accepted: map<string, seq<int>>, written: map<string, int>, user: string, now: int)
    requires StoredFiltered(usage, accepted, written)
    requires Recent(StoredIn(usage, user), now) == Recent(StoredIn(accepted, user), now)
    ensures StoredFiltered(usage[user := Recent(StoredIn(usage, user), now) + [now]], accepted[user := StoredIn(accepted, user) + [now]], written[user := now])
  {
    RecentSnoc(StoredIn(accepted, user), now, now);
  }

  lemma AcceptKeepsSorted(accepted: map<string, seq<int>>, user: string, now: int)
    requires AllSorted(accepted)
    requires forall i | 0 <= i < |StoredIn(accepted, user)| :: StoredIn(accepted, user)[i] <= now
    ensures AllSorted(accepted[user := StoredIn(accepted, user) + [now]])
  {
    AcceptKeepsOrder(StoredIn(accepted, user), now);
  }

  lemma AcceptKeepsNoneLater(accepted: map<string, seq<int>>, written: map<string, int>, user: string, now: int)
    requires NoneLater(accepted, written)
    requires forall i | 0 <= i < |StoredIn(accepted, user)| :: StoredIn(accepted, user)[i] <= now
    ensures NoneLater(accepted[user := StoredIn(accepted, user) + [now]], written[user := now])
  {
  }

  /** Appending a time no earlier than any stored one keeps the list in order. */
  lemma AcceptKeepsOrder(acc: seq<int>, now: int)
    requires Sorted(acc) && forall i | 0 <= i < |acc| :: acc[i] <= now
    ensures Sorted(acc + [now])
  {
  }

  /** Appending `now` to a list with fewer than 100 recent times keeps every window at 100 or fewer. */
  lemma AcceptKeepsWindows(accepted: map<string, seq<int>>, user: string, now: int)
    requires WindowBound(accepted)
    requires forall i | 0 <= i < |StoredIn(accepted, user)| :: StoredIn(accepted, user)[i] <= now
    requires |Recent(StoredIn(accepted, user), now)| < MaxRequests
    ensures WindowBound(accepted[user := StoredIn(accepted, user) + [now]])
  {
    var acc := StoredIn(accepted, user);
    var next := accepted[user := acc + [now]];
    assert (acc + [now])[..|acc|] == acc;
    forall u, s | u in next ensures InWindow(next[u], s) <= MaxRequests {
      if u == user {
        if s <= now < s + WindowMs {
          InWindowWithinRecent(acc, s, now);
        } else if user in accepted {
          assert InWindow(accepted[user], s) <= MaxRequests;
        }
      } else {
        assert InWindow(accepted[u], s) <= MaxRequests;
      }
    }
  }

  /**
   * The limiter's invariant on its state: no stored list is longer than 100,
   * the guarantees of a steady clock while it has been steady, and an empty
   * state before the first call.
   */
  ghost predicate Inv(
    usage: map<string, seq<int>>, accepted: map<string, seq<int>>, written: map<string, int>,
    clock: int, called: bool, steady: bool)
  {
    && (forall u | u in usage :: |usage[u]| <= MaxRequests)
    && (steady ==> Tracked(usage, accepted, written, clock))
    && (!called ==> usage == accepted == map[] && written == map[])
  }

  /** A refused call at clock reading `now` keeps the invariant. */
  lemma RefuseInv(
    usage: map<string, seq<int>>, accepted: map<string, seq<int>>, written: map<string, int>,
    clock: int, called: bool, steady: bool, now: int)
    requires Inv(usage, accepted, written, clock, called, steady)
    ensures Inv(usage, accepted, written, now, true, steady && (called ==> clock <= now))
  {
    if steady && (called ==> clock <= now) {
      RefuseKeepsTracked(usage, accepted, written, if called then clock else now, now);
    }
  }

  /** An accepted call at clock reading `now` keeps the invariant, and with it the window bound. */
  lemma AcceptInv(
    usage: map<string, seq<int>>, accepted: map<string, seq<int>>, written: map<string, int>,
    clock: int, called: bool, steady: bool, user: string, now: int)
    requires Inv(usage, accepted, written, clock, called, steady)
    requires |Recent(StoredIn(usage, user), now)| < MaxRequests
    ensures Inv(
      usage[user := Recent(StoredIn(usage, user), now) + [now]], accepted[user := StoredIn(accepted, user) + [now]],
      written[user := now], now, true, steady && (called ==> clock <= now))
    ensures steady && (called ==> clock <= now) ==> WindowBound(accepted[user := StoredIn(accepted, user) + [now]])
  {
    if steady && (called ==> clock <= now) {
      AcceptKeepsTracked(usage, accepted, written, if called then clock else now, user, now);
    }
  }

  class ApiLimiter {
    /** `userApiUsage`. */
    var usage: map<string, seq<int>>
    /** Every accepted request's time, per user. */
    ghost var accepted: map<string, seq<int>>
    /** The time of each user's last accepted request, when `usage` was last written for them. */
    ghost var written: map<string, int>
    /** The clock reading of the last call, and whether any call was made. */
    ghost var clock: int
    ghost var called: bool
    /** No call so far saw the clock go back. */
    ghost var steady: bool

    ghost predicate Valid()
      reads this
    {
      Inv(usage, accepted, written, clock, called, steady)
    }

    constructor ()
      ensures Valid() && usage == map[] && steady
    {
      usage := map[];
      accepted := map[];
      written := map[];
      clock := 0;
      called := false;
      steady := true;
    }

    /**
     * One call of the middleware: prune the user's list to the last minute;
     * refuse (429) when 100 or more remain, leaving the map as it was;
     * otherwise append `now` and store the list for that user alone.
     */
    method Request(user: string, now: int) returns (allowed: bool)
      requires Valid()
      modifies this
      ensures Valid()
      ensures forall u | u in usage :: |usage[u]| <= MaxRequests
      ensures allowed <==> |Recent(StoredIn(old(usage), user), now)| < MaxRequests
      ensures allowed ==> usage == old(usage)[user := Recent(StoredIn(old(usage), user), now) + [now]]
      ensures !allowed ==> usage == old(usage)
      ensures steady <==> old(steady) && (old(called) ==> old(clock) <= now)
      ensures steady ==> WindowBound(accepted)
      ensures accepted == if allowed then old(accepted)[user := StoredIn(old(accepted), user) + [now]] else old(accepted)
    {
      var requests := Recent(StoredIn(usage, user), now);
      if |requests| >= MaxRequests {
        Refuse(now);
        return false;
      }
      Accept(user, now, requests);
      return true;
    }

    /** The refusing branch: only the clock moves on. */
    method Refuse(now: int)
      requires Valid()
      modifies this
      ensures Valid()
      ensures usage == old(usage) && accepted == old(accepted)
      ensures steady <==> old(steady) && (old(called) ==> old(clock) <= now)
      ensures steady ==> WindowBound(accepted)
    {
      RefuseInv(usage, accepted, written, clock, called, steady, now);
      steady, clock, called := steady && (called ==> clock <= now), now, true;
    }

    /** The accepting branch: the pruned list `requests` gains `now` and is stored for the user. */
    method Accept(user: string, now: int, requests: seq<int>)
      requires Valid()
      requires requests == Recent(StoredIn(usage, user), now) && |requests| < MaxRequests
      modifies this
      ensures Valid()
      ensures usage == old(usage)[user := requests + [now]]
      ensures accepted == old(accepted)[user := StoredIn(old(accepted), user) + [now]]
      ensures steady <==> old(steady) && (old(called) ==> old(clock) <= now)
      ensures steady ==> WindowBound(accepted)
    {
      AcceptInv(usage, accepted, written, clock, called, steady, user, now);
      usage := usage[user := requests + [now]];
      accepted := accepted[user := StoredIn(accepted, user) + [now]];
      written := written[user := now];
      steady, clock, called := steady && (called ==> clock <= now), now, true;
    }
  }
}
