/**
  The per-IP sliding-window rate limiter of server/auth.py.  Times are the monotonic clock's
  readings, in the order in which the requests get the lock.
 */
module RateLimiter {

  /** At most `max` accepted requests in any `window` seconds. */
  datatype Limit = Limit(max: nat, window: real)

  function Extend(times: seq<real>, t: real, ok: bool): seq<real> {
    if ok then times + [t] else times
  }

  /** `[t for t in times if t > cutoff]`. */
  function After(times: seq<real>, cutoff: real): seq<real> {
    if times == [] then []
    else Extend(After(times[..|times| - 1], cutoff), times[|times| - 1], times[|times| - 1] > cutoff)
  }

  function Lookup(table: map<string, seq<real>>, ip: string): seq<real> {
    if ip in table then table[ip] else []
  }

  datatype Request = Request(ip: string, now: real)

  predicate Admits(limit: Limit, times: seq<real>, now: real) {
    |After(times, now - limit.window)| < limit.max
  }

  class Limiter {
    const limit: Limit
    var ipTimestamps: map<string, seq<real>>

    constructor (limit: Limit)
      ensures this.limit == limit && ipTimestamps == map[]
    {
      this.limit := limit;
      ipTimestamps := map[];
    }

    /** Evicts stale entries, then accepts and records the request or answers 429. */
    method Handle(r: Request) returns (accepted: bool)
      modifies this
      ensures accepted == Admits(limit, Lookup(old(ipTimestamps), r.ip), r.now)
      ensures ipTimestamps == TableAfter(limit, old(ipTimestamps), r)
    {
      var cutoff := r.now - limit.window;
      var times := Lookup(ipTimestamps, r.ip);
      ipTimestamps := ipTimestamps[r.ip := After(times, cutoff)];
      if |ipTimestamps[r.ip]| >= limit.max {
        return false;
      }
      ipTimestamps := ipTimestamps[r.ip := ipTimestamps[r.ip] + [r.now]];
      return true;
    }
  }

  function TableAfter(limit: Limit, table: map<string, seq<real>>, r: Request): map<string, seq<real>> {
    var kept := After(Lookup(table, r.ip), r.now - limit.window);
    table[r.ip := Extend(kept, r.now, |kept| < limit.max)]
  }

  /** The table after a whole stream of requests. */
  function Run(limit: Limit, rs: seq<Request>): map<string, seq<real>> {
    if rs == [] then map[] else TableAfter(limit, Run(limit, rs[..|rs| - 1]), rs[|rs| - 1])
  }

  /** Everything the limiter ever accepted from `ip`: nothing is evicted here. */
  function AcceptedTimes(limit: Limit, rs: seq<Request>, ip: string): seq<real> {
    if rs == [] then []
    else
      var before := rs[..|rs| - 1];
      var r := rs[|rs| - 1];
      Extend(AcceptedTimes(limit, before, ip), r.now,
             r.ip == ip && Admits(limit, Lookup(Run(limit, before), ip), r.now))
  }

  /** The times at which `ip` sent requests, in lock order. */
  function TimesOf(rs: seq<Request>, ip: string): seq<real> {
    if rs == [] then []
    else Extend(TimesOf(rs[..|rs| - 1], ip), rs[|rs| - 1].now, rs[|rs| - 1].ip == ip)
  }

  /** Every request from `ip` got the lock in the order of the times. */
  ghost predicate InOrder(rs: seq<Request>, ip: string) {
    NonDecreasing(TimesOf(rs, ip))
  }

  ghost predicate NonDecreasing(times: seq<real>) {
    forall i, j :: 0 <= i < j < |times| ==> times[i] <= times[j]
  }

  lemma {:induction false} TimeOfRequest(rs: seq<Request>, q: Request)
    requires q in rs
    ensures q.now in TimesOf(rs, q.ip)
  {
    var before, last := rs[..|rs| - 1], rs[|rs| - 1];
    assert rs == before + [last];
    if q in before { TimeOfRequest(before, q); }
  }

  // ----- The evicting list against the whole history -----

  lemma AfterExtend(times: seq<real>, t: real, ok: bool, cutoff: real)
    ensures After(Extend(times, t, ok), cutoff) == Extend(After(times, cutoff), t, ok && t > cutoff)
  {
    assert (times + [t])[..|times|] == times;
  }

  lemma {:induction false} AfterAfter(times: seq<real>, early: real, late: real)
    requires early <= late
    ensures After(After(times, early), late) == After(times, late)
  {
    if times == [] {
    } else {
      var n := |times| - 1;
      AfterAfter(times[..n], early, late);
      AfterExtend(After(times[..n], early), times[n], times[n] > early, late);
    }
  }

  lemma LookupAfter(limit: Limit, table: map<string, seq<real>>, r: Request, ip: string)
    ensures Lookup(TableAfter(limit, table, r), ip)
            == if r.ip == ip then
                 Extend(After(Lookup(table, ip), r.now - limit.window), r.now, Admits(limit, Lookup(table, ip), r.now))
               else Lookup(table, ip)
  {
  }

  /** Seen through any cutoff that is not earlier than those applied so far, the list is the history. */
  lemma {:induction false} ListIsHistory(limit: Limit, rs: seq<Request>, ip: string, cutoff: real)
    requires forall r :: r in rs && r.ip == ip ==> r.now - limit.window <= cutoff
    ensures After(Lookup(Run(limit, rs), ip), cutoff) == After(AcceptedTimes(limit, rs, ip), cutoff)
  {
    if rs == [] {
    } else {
      var before, r := rs[..|rs| - 1], rs[|rs| - 1];
      assert r in rs;
      ListIsHistory(limit, before, ip, cutoff);
      LookupAfter(limit, Run(limit, before), r, ip);
      if r.ip == ip {
        var list, history := Lookup(Run(limit, before), ip), AcceptedTimes(limit, before, ip);
        var ok := Admits(limit, list, r.now);
        AfterAfter(list, r.now - limit.window, cutoff);
        AfterExtend(After(list, r.now - limit.window), r.now, ok, cutoff);
        AfterExtend(history, r.now, ok, cutoff);
      }
    }
  }

  lemma {:induction false} AfterAll(times: seq<real>, cutoff: real)
    requires forall i :: 0 <= i < |times| ==> times[i] > cutoff
    ensures After(times, cutoff) == times
  {
    if times == [] {
    } else {
      AfterAll(times[..|times| - 1], cutoff);
    }
  }

  lemma {:induction false} AfterNone(times: seq<real>, cutoff: real)
    requires forall i :: 0 <= i < |times| ==> times[i] <= cutoff
    ensures After(times, cutoff) == []
  {
    if times == [] {
    } else {
      AfterNone(times[..|times| - 1], cutoff);
    }
  }

  // ----- A limit of one -----

  /** Every time is at least `gap` after each one before it. */
  ghost predicate Spaced(times: seq<real>, gap: real) {
    forall i, j :: 0 <= i < j < |times| ==> times[i] + gap <= times[j]
  }

  /** The list of an address that is allowed one request holds the last one accepted. */
  ghost predicate HoldsLast(list: seq<real>, accepted: seq<real>) {
    list == if accepted == [] then [] else [accepted[|accepted| - 1]]
  }

  lemma OneMoreSpaced(limit: Limit, list: seq<real>, accepted: seq<real>, now: real)
    requires limit.max == 1 && limit.window >= 0.0 && HoldsLast(list, accepted) && Spaced(accepted, limit.window)
    ensures var ok := Admits(limit, list, now);
            && HoldsLast(Extend(After(list, now - limit.window), now, ok), Extend(accepted, now, ok))
            && Spaced(Extend(accepted, now, ok), limit.window)
  {
    if accepted != [] {
      assert list[..0] == [];
      assert After(list, now - limit.window) == if list[0] > now - limit.window then list else [];
    }
  }

  /** With a limit of one, in any order, the accepted times are at least a window apart. */
  lemma {:induction false} OneIsSpaced(limit: Limit, rs: seq<Request>, ip: string)
    requires limit.max == 1 && limit.window >= 0.0
    ensures HoldsLast(Lookup(Run(limit, rs), ip), AcceptedTimes(limit, rs, ip))
    ensures Spaced(AcceptedTimes(limit, rs, ip), limit.window)
  {
    if rs == [] {
    } else {
      var before, r := rs[..|rs| - 1], rs[|rs| - 1];
      OneIsSpaced(limit, before, ip);
      LookupAfter(limit, Run(limit, before), r, ip);
      OneMoreSpaced(limit, Lookup(Run(limit, before), ip), AcceptedTimes(limit, before, ip), r.now);
    }
  }

  lemma LastDecides(list: seq<real>, accepted: seq<real>, gap: real, cutoff: real)
    requires HoldsLast(list, accepted) && Spaced(accepted, gap) && gap >= 0.0
    ensures After(list, cutoff) == [] <==> After(accepted, cutoff) == []
  {
    if accepted != [] {
      var last := accepted[|accepted| - 1];
      assert list[..0] == [];
      if last <= cutoff {
        forall i | 0 <= i < |accepted| ensures accepted[i] <= cutoff {
          assert i < |accepted| - 1 ==> accepted[i] + gap <= last;
        }
        AfterNone(accepted, cutoff);
      }
    }
  }

  // ----- The limiter and the history decide alike -----

  /**
    The limiter answers as if it had never evicted anything: it accepts a request that is not
    earlier than the ones before it from that address exactly when fewer than `max` of all the
    requests ever accepted from there fall in its window.  With a limit of one that holds in any
    order.
   */
  lemma DecidesByHistory(limit: Limit, rs: seq<Request>, r: Request)
    requires (limit.max <= 1 && limit.window >= 0.0) || forall q :: q in rs && q.ip == r.ip ==> q.now <= r.now
    ensures Admits(limit, Lookup(Run(limit, rs), r.ip), r.now)
            <==> Admits(limit, AcceptedTimes(limit, rs, r.ip), r.now)
  {
    var list, history := Lookup(Run(limit, rs), r.ip), AcceptedTimes(limit, rs, r.ip);
    if limit.max == 1 && limit.window >= 0.0 {
      OneIsSpaced(limit, rs, r.ip);
      LastDecides(list, history, limit.window, r.now - limit.window);
    } else if limit.max > 0 {
      ListIsHistory(limit, rs, r.ip, r.now - limit.window);
      AdmitsAlike(limit, list, history, r.now);
    }
  }

  lemma AdmitsAlike(limit: Limit, list: seq<real>, history: seq<real>, now: real)
    requires After(list, now - limit.window) == After(history, now - limit.window)
    ensures Admits(limit, list, now) <==> Admits(limit, history, now)
  {
  }

  // ----- One address at a time -----

  /** The requests accepted by counting over the whole history. */
  function Greedy(limit: Limit, times: seq<real>): seq<real> {
    if times == [] then []
    else
      var accepted := Greedy(limit, times[..|times| - 1]);
      Extend(accepted, times[|times| - 1], Admits(limit, accepted, times[|times| - 1]))
  }

  function From(rs: seq<Request>, ip: string): seq<Request> {
    if rs == [] then []
    else From(rs[..|rs| - 1], ip) + if rs[|rs| - 1].ip == ip then [rs[|rs| - 1]] else []
  }

  /** Requests from other addresses make no difference, whatever the order of their times. */
  lemma {:induction false} AddressesAreIndependent(limit: Limit, rs: seq<Request>, ip: string)
    ensures Lookup(Run(limit, From(rs, ip)), ip) == Lookup(Run(limit, rs), ip)
    ensures AcceptedTimes(limit, From(rs, ip), ip) == AcceptedTimes(limit, rs, ip)
  {
    if rs == [] {
    } else {
      var before, r := rs[..|rs| - 1], rs[|rs| - 1];
      AddressesAreIndependent(limit, before, ip);
      LookupAfter(limit, Run(limit, before), r, ip);
      if r.ip == ip {
        assert (From(before, ip) + [r])[..|From(before, ip)|] == From(before, ip);
        LookupAfter(limit, Run(limit, From(before, ip)), r, ip);
      } else {
        assert From(before, ip) + [] == From(before, ip);
      }
    }
  }

  /**
    In the order of the times, or with a limit of one, what is accepted from one address is what
    counting its history accepts.
   */
  lemma {:induction false} AcceptedIsGreedy(limit: Limit, rs: seq<Request>, ip: string)
    requires (limit.max <= 1 && limit.window >= 0.0) || InOrder(rs, ip)
    ensures AcceptedTimes(limit, rs, ip) == Greedy(limit, TimesOf(rs, ip))
  {
    if rs == [] {
    } else {
      var before, r := rs[..|rs| - 1], rs[|rs| - 1];
      var times := TimesOf(before, ip);
      assert (times + [r.now])[..|times|] == times;
      assert times <= TimesOf(rs, ip);
      assert InOrder(rs, ip) ==> InOrder(before, ip);
      AcceptedIsGreedy(limit, before, ip);
      if r.ip == ip {
        if InOrder(rs, ip) { NoneLater(before, r); }
        DecidesByHistory(limit, before, r);
      }
    }
  }

  lemma NoneLater(rs: seq<Request>, r: Request)
    requires NonDecreasing(TimesOf(rs, r.ip) + [r.now])
    ensures forall q :: q in rs && q.ip == r.ip ==> q.now <= r.now
  {
    var times := TimesOf(rs, r.ip);
    forall q | q in rs && q.ip == r.ip ensures q.now <= r.now {
      TimeOfRequest(rs, q);
      var i :| 0 <= i < |times| && times[i] == q.now;
      assert (times + [r.now])[i] <= (times + [r.now])[|times|];
    }
  }

  // ----- No window holds more than the limit -----

  /** How many of `times` fall in the half-open window after `lo` up to and including `hi`. */
  function Within(times: seq<real>, lo: real, hi: real): nat {
    if times == [] then 0
    else Within(times[..|times| - 1], lo, hi) + if lo < times[|times| - 1] <= hi then 1 else 0
  }

  ghost predicate Obeys(limit: Limit, times: seq<real>) {
    forall lo: real :: WindowObeys(limit, times, lo)
  }

  ghost predicate WindowObeys(limit: Limit, times: seq<real>, lo: real) {
    Within(times, lo, lo + limit.window) <= limit.max
  }

  lemma {:induction false} WithinAfter(times: seq<real>, cutoff: real, lo: real, hi: real)
    requires cutoff <= lo
    ensures Within(times, lo, hi) <= |After(times, cutoff)|
  {
    if times == [] {
    } else {
      WithinAfter(times[..|times| - 1], cutoff, lo, hi);
    }
  }

  lemma {:induction false} WithinIsAfter(times: seq<real>, lo: real, hi: real)
    requires forall i :: 0 <= i < |times| ==> times[i] <= hi
    ensures Within(times, lo, hi) == |After(times, lo)|
  {
    if times == [] {
    } else {
      WithinIsAfter(times[..|times| - 1], lo, hi);
    }
  }

  lemma {:induction false} AfterLess(times: seq<real>, early: real, late: real)
    requires early <= late
    ensures |After(times, late)| <= |After(times, early)|
  {
    if times == [] {
    } else {
      AfterLess(times[..|times| - 1], early, late);
    }
  }

  /** No request is more than `skew` earlier than one from the same address that got the lock before it. */
  ghost predicate Skewed(times: seq<real>, skew: real) {
    skew >= 0.0 && forall i, j :: 0 <= i < j < |times| ==> times[i] <= times[j] + skew
  }

  /** An accepted request leaves every window around it, shortened by the skew, within the limit. */
  lemma AcceptedFits(limit: Limit, rs: seq<Request>, r: Request, lo: real, skew: real)
    requires skew >= 0.0 && forall q :: q in rs && q.ip == r.ip ==> q.now <= r.now + skew
    requires Admits(limit, Lookup(Run(limit, rs), r.ip), r.now)
    requires r.now <= lo + limit.window - skew
    ensures Within(AcceptedTimes(limit, rs, r.ip), lo, lo + limit.window - skew) < limit.max
  {
    var cutoff := r.now + skew - limit.window;
    forall q | q in rs && q.ip == r.ip ensures q.now - limit.window <= cutoff {}
    ListIsHistory(limit, rs, r.ip, cutoff);
    AdmittedFits(limit, Lookup(Run(limit, rs), r.ip), AcceptedTimes(limit, rs, r.ip), r.now, cutoff, lo, lo + limit.window - skew);
  }

  lemma AdmittedFits(limit: Limit, list: seq<real>, history: seq<real>, now: real, cutoff: real, lo: real, hi: real)
    requires Admits(limit, list, now) && After(list, cutoff) == After(history, cutoff)
    requires now - limit.window <= cutoff <= lo
    ensures Within(history, lo, hi) < limit.max
  {
    AfterLess(list, now - limit.window, cutoff);
    WithinAfter(history, cutoff, lo, hi);
  }

  lemma NoneMuchLater(rs: seq<Request>, r: Request, skew: real)
    requires Skewed(TimesOf(rs, r.ip) + [r.now], skew)
    ensures forall q :: q in rs && q.ip == r.ip ==> q.now <= r.now + skew
  {
    var times := TimesOf(rs, r.ip);
    forall q | q in rs && q.ip == r.ip ensures q.now <= r.now + skew {
      TimeOfRequest(rs, q);
      var i :| 0 <= i < |times| && times[i] == q.now;
      assert (times + [r.now])[i] <= (times + [r.now])[|times|] + skew;
    }
  }

  /**
    The clock is read before the lock is taken.  As long as no request gets the lock more than
    `skew` after a later one from the same address, no window that is shorter than the configured
    one by that much ever holds more than `max` accepted requests.
   */
  lemma {:induction false} NoSkewedWindowExceeds(limit: Limit, rs: seq<Request>, ip: string, lo: real, skew: real)
    requires Skewed(TimesOf(rs, ip), skew)
    ensures Within(AcceptedTimes(limit, rs, ip), lo, lo + limit.window - skew) <= limit.max
  {
    if rs == [] {
    } else {
      var before, r := rs[..|rs| - 1], rs[|rs| - 1];
      var times := TimesOf(before, ip);
      assert times <= TimesOf(rs, ip);
      assert Skewed(times, skew);
      NoSkewedWindowExceeds(limit, before, ip, lo, skew);
      var ok := r.ip == ip && Admits(limit, Lookup(Run(limit, before), ip), r.now);
      WithinExtend(AcceptedTimes(limit, before, ip), r.now, ok, lo, lo + limit.window - skew);
      if ok && r.now <= lo + limit.window - skew {
        NoneMuchLater(before, r, skew);
        AcceptedFits(limit, before, r, lo, skew);
      }
    }
  }

  lemma WithinExtend(times: seq<real>, t: real, ok: bool, lo: real, hi: real)
    ensures Within(Extend(times, t, ok), lo, hi) == Within(times, lo, hi) + if ok && lo < t <= hi then 1 else 0
  {
    assert (times + [t])[..|times|] == times;
  }

  lemma {:induction false} NoneWithin(times: seq<real>, lo: real, hi: real)
    requires forall i :: 0 <= i < |times| ==> times[i] <= lo
    ensures Within(times, lo, hi) == 0
  {
    if times == [] {
    } else {
      NoneWithin(times[..|times| - 1], lo, hi);
    }
  }

  lemma {:induction false} SpacedWithin(times: seq<real>, gap: real, lo: real, hi: real)
    requires Spaced(times, gap) && hi <= lo + gap
    ensures Within(times, lo, hi) <= 1
  {
    if times == [] {
    } else {
      var before, last := times[..|times| - 1], times[|times| - 1];
      SpacedWithin(before, gap, lo, hi);
      if lo < last <= hi {
        forall i | 0 <= i < |before| ensures before[i] <= lo { assert times[i] + gap <= last; }
        NoneWithin(before, lo, hi);
      }
    }
  }

  lemma {:induction false} NothingAccepted(limit: Limit, rs: seq<Request>, ip: string)
    requires limit.max == 0
    ensures AcceptedTimes(limit, rs, ip) == []
  {
    if rs == [] {
    } else {
      NothingAccepted(limit, rs[..|rs| - 1], ip);
    }
  }

  /**
    With requests in time order, and with a limit of one in any order, no window ever holds more
    than `max` accepted ones.
   */
  lemma NoWindowExceeds(limit: Limit, rs: seq<Request>, ip: string, lo: real)
    requires (limit.max <= 1 && limit.window >= 0.0) || InOrder(rs, ip)
    ensures Within(AcceptedTimes(limit, rs, ip), lo, lo + limit.window) <= limit.max
  {
    if limit.max == 0 {
      NothingAccepted(limit, rs, ip);
    } else if limit.max == 1 && limit.window >= 0.0 {
      OneIsSpaced(limit, rs, ip);
      SpacedWithin(AcceptedTimes(limit, rs, ip), limit.window, lo, lo + limit.window);
    } else {
      NoSkewedWindowExceeds(limit, rs, ip, lo, 0.0);
      assert lo + limit.window - 0.0 == lo + limit.window;
    }
  }

  // ----- No policy within the limit accepts more -----

  /** The requests another policy picks. */
  function Chosen(times: seq<real>, picks: seq<bool>): seq<real>
    requires |picks| == |times|
  {
    if times == [] then []
    else Extend(Chosen(times[..|times| - 1], picks[..|picks| - 1]), times[|times| - 1], picks[|picks| - 1])
  }

  lemma {:induction false} ChosenAmong(times: seq<real>, picks: seq<bool>, bound: real)
    requires |picks| == |times| && forall i :: 0 <= i < |times| ==> times[i] <= bound
    ensures forall i :: 0 <= i < |Chosen(times, picks)| ==> Chosen(times, picks)[i] <= bound
  {
    if times == [] {
    } else {
      ChosenAmong(times[..|times| - 1], picks[..|picks| - 1], bound);
    }
  }

  /** How many requests are not later than `cutoff`: they come first. */
  lemma SplitAt(times: seq<real>, cutoff: real) returns (q: nat)
    requires NonDecreasing(times)
    ensures q <= |times|
    ensures forall i :: 0 <= i < q ==> times[i] <= cutoff
    ensures forall i :: q <= i < |times| ==> times[i] > cutoff
  {
    q := |times|;
    while q > 0 && times[q - 1] > cutoff
      invariant q <= |times|
      invariant forall i :: q <= i < |times| ==> times[i] > cutoff
    {
      q := q - 1;
    }
  }

  lemma {:induction false} ChosenAfter(times: seq<real>, picks: seq<bool>, cutoff: real, q: nat)
    requires |picks| == |times| && q <= |times|
    requires forall i :: 0 <= i < q ==> times[i] <= cutoff
    requires forall i :: q <= i < |times| ==> times[i] > cutoff
    ensures |After(Chosen(times, picks), cutoff)| == |Chosen(times, picks)| - |Chosen(times[..q], picks[..q])|
  {
    if times == [] {
    } else {
      var n := |times| - 1;
      var before := Chosen(times[..n], picks[..n]);
      AfterExtend(before, times[n], picks[n], cutoff);
      if q == |times| {
        ChosenAfter(times[..n], picks[..n], cutoff, n);
        assert times[..q] == times && picks[..q] == picks && times[..n][..n] == times[..n] && picks[..n][..n] == picks[..n];
      } else {
        ChosenAfter(times[..n], picks[..n], cutoff, q);
        assert times[..n][..q] == times[..q] && picks[..n][..q] == picks[..q];
      }
    }
  }

  /** Greedy's own picks. */
  function GreedyPicks(limit: Limit, times: seq<real>): (picks: seq<bool>)
    ensures |picks| == |times|
  {
    if times == [] then []
    else GreedyPicks(limit, times[..|times| - 1])
         + [Admits(limit, Greedy(limit, times[..|times| - 1]), times[|times| - 1])]
  }

  lemma PicksPrefix(limit: Limit, times: seq<real>, q: nat)
    requires q < |times|
    ensures GreedyPicks(limit, times)[..q] == GreedyPicks(limit, times[..|times| - 1])[..q]
  {
  }

  lemma {:induction false} GreedyIsChosen(limit: Limit, times: seq<real>, q: nat)
    requires q <= |times|
    ensures Chosen(times[..q], GreedyPicks(limit, times)[..q]) == Greedy(limit, times[..q])
    decreases |times|, q
  {
    if times == [] {
    } else {
      var n := |times| - 1;
      if q <= n {
        GreedyIsChosen(limit, times[..n], q);
        PicksPrefix(limit, times, q);
        assert times[..n][..q] == times[..q];
      } else {
        GreedyIsChosen(limit, times, n);
        PicksPrefix(limit, times, n);
        assert times[..q] == times && GreedyPicks(limit, times)[..q] == GreedyPicks(limit, times);
      }
    }
  }

  lemma ObeysPrefix(limit: Limit, times: seq<real>, t: real)
    requires Obeys(limit, times + [t])
    ensures Obeys(limit, times)
  {
    forall lo: real ensures WindowObeys(limit, times, lo) {
      assert (times + [t])[..|times|] == times;
      assert WindowObeys(limit, times + [t], lo);
    }
  }

  lemma {:induction false} ChosenPrefixObeys(limit: Limit, times: seq<real>, picks: seq<bool>, q: nat)
    requires |picks| == |times| && q <= |times| && Obeys(limit, Chosen(times, picks))
    ensures Obeys(limit, Chosen(times[..q], picks[..q]))
  {
    if q == |times| {
      assert times[..q] == times && picks[..q] == picks;
    } else {
      var n := |times| - 1;
      if picks[n] { ObeysPrefix(limit, Chosen(times[..n], picks[..n]), times[n]); }
      ChosenPrefixObeys(limit, times[..n], picks[..n], q);
      assert times[..n][..q] == times[..q] && picks[..n][..q] == picks[..q];
    }
  }

  lemma GreedyAfter(limit: Limit, times: seq<real>, cutoff: real, q: nat)
    requires q <= |times|
    requires forall i :: 0 <= i < q ==> times[i] <= cutoff
    requires forall i :: q <= i < |times| ==> times[i] > cutoff
    ensures |After(Greedy(limit, times), cutoff)| == |Greedy(limit, times)| - |Greedy(limit, times[..q])|
  {
    var picks := GreedyPicks(limit, times);
    ChosenAfter(times, picks, cutoff, q);
    GreedyIsChosen(limit, times, q);
    GreedyIsChosen(limit, times, |times|);
    assert times[..|times|] == times && picks[..|times|] == picks;
  }

  /**
    A request that greedy turns away and a policy takes: the `q` requests before its window do not
    count against it, and of the others the policy had taken at least one fewer than greedy.
   */
  lemma TurnedAway(limit: Limit, times: seq<real>, picks: seq<bool>, t: real, q: nat)
    requires limit.window > 0.0 && |picks| == |times| && q <= |times|
    requires forall i :: 0 <= i < |times| ==> times[i] <= t
    requires forall i :: 0 <= i < q ==> times[i] <= t - limit.window
    requires forall i :: q <= i < |times| ==> times[i] > t - limit.window
    requires WindowObeys(limit, Chosen(times, picks) + [t], t - limit.window)
    requires !Admits(limit, Greedy(limit, times), t)
    requires |Chosen(times[..q], picks[..q])| <= |Greedy(limit, times[..q])|
    ensures |Chosen(times, picks)| < |Greedy(limit, times)|
  {
    PolicyTookFewer(limit, times, picks, t, q);
    GreedyAfter(limit, times, t - limit.window, q);
  }

  lemma PolicyTookFewer(limit: Limit, times: seq<real>, picks: seq<bool>, t: real, q: nat)
    requires limit.window > 0.0 && |picks| == |times| && q <= |times|
    requires forall i :: 0 <= i < |times| ==> times[i] <= t
    requires forall i :: 0 <= i < q ==> times[i] <= t - limit.window
    requires forall i :: q <= i < |times| ==> times[i] > t - limit.window
    requires WindowObeys(limit, Chosen(times, picks) + [t], t - limit.window)
    ensures |Chosen(times, picks)| - |Chosen(times[..q], picks[..q])| < limit.max
  {
    ChosenAfter(times, picks, t - limit.window, q);
    ChosenAmong(times, picks, t);
    RoomForOne(limit, Chosen(times, picks), t);
  }

  /** A window that obeys the limit with `t` in it held less than the limit without it. */
  lemma RoomForOne(limit: Limit, c: seq<real>, t: real)
    requires limit.window > 0.0 && forall i :: 0 <= i < |c| ==> c[i] <= t
    requires WindowObeys(limit, c + [t], t - limit.window)
    ensures |After(c, t - limit.window)| < limit.max
  {
    WithinIsAfter(c, t - limit.window, t);
    assert (c + [t])[..|c|] == c && (t - limit.window) + limit.window == t;
  }

  /**
    Greedy stays ahead: no choice among the same requests that keeps every window within the limit
    is larger.  A prefix of such a choice is one too, so this holds at every moment.
   */
  lemma {:induction false} GreedyIsOptimal(limit: Limit, times: seq<real>, picks: seq<bool>)
    requires limit.window > 0.0 && NonDecreasing(times) && |picks| == |times|
    requires Obeys(limit, Chosen(times, picks))
    ensures |Chosen(times, picks)| <= |Greedy(limit, times)|
    decreases |times|
  {
    if times == [] {
    } else {
      var n := |times| - 1;
      var t := times[n];
      ChosenPrefixObeys(limit, times, picks, n);
      GreedyIsOptimal(limit, times[..n], picks[..n]);
      if picks[n] && !Admits(limit, Greedy(limit, times[..n]), t) {
        var q := SplitAt(times[..n], t - limit.window);
        ChosenPrefixObeys(limit, times[..n], picks[..n], q);
        GreedyIsOptimal(limit, times[..n][..q], picks[..n][..q]);
        assert WindowObeys(limit, Chosen(times, picks), t - limit.window);
        TurnedAway(limit, times[..n], picks[..n], t, q);
      }
    }
  }

  /**
    After every request of a stream in time order, the limiter has accepted at least as many from
    `ip` as any policy that respects the limit could have.
   */
  lemma AcceptsAtLeastAsMany(limit: Limit, rs: seq<Request>, ip: string, picks: seq<bool>, n: nat)
    requires limit.window > 0.0 && InOrder(rs, ip) && n <= |rs|
    requires |picks| == |TimesOf(rs, ip)| && Obeys(limit, Chosen(TimesOf(rs, ip), picks))
    ensures |TimesOf(rs[..n], ip)| <= |picks|
    ensures |Chosen(TimesOf(rs[..n], ip), picks[..|TimesOf(rs[..n], ip)|])| <= |AcceptedTimes(limit, rs[..n], ip)|
  {
    TimesOfPrefix(rs, ip, n);
    var m := |TimesOf(rs[..n], ip)|;
    assert TimesOf(rs, ip)[..m] == TimesOf(rs[..n], ip);
    ChosenPrefixObeys(limit, TimesOf(rs, ip), picks, m);
    GreedyIsOptimal(limit, TimesOf(rs[..n], ip), picks[..m]);
    AcceptedIsGreedy(limit, rs[..n], ip);
  }

  lemma {:induction false} TimesOfPrefix(rs: seq<Request>, ip: string, n: nat)
    requires n <= |rs|
    ensures TimesOf(rs[..n], ip) <= TimesOf(rs, ip)
  {
    if n < |rs| {
      TimesOfPrefix(rs[..|rs| - 1], ip, n);
      assert rs[..|rs| - 1][..n] == rs[..n];
    } else {
      assert rs[..n] == rs;
    }
  }
}
