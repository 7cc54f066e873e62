/**
  What it costs that the rate limiter reads the clock before it takes the lock (server/auth.py): a
  request may get the lock after a later one.  Each guarantee of RateLimiter that needs the order
  of the times is shown to hold exactly without any delay, or for a window shorter by the delay.
 */
module LateRequests {
  import opened Data
  import opened RateLimiter

  // ----- A delay costs exactly that much of the window -----

  ghost predicate WindowHolds(limit: Limit, rs: seq<Request>, ip: string, lo: real, length: real) {
    Within(AcceptedTimes(limit, rs, ip), lo, lo + length) <= limit.max
  }

  lemma {:induction false} WithinLess(times: seq<real>, lo: real, hi: real, more: real)
    requires hi <= more
    ensures Within(times, lo, hi) <= Within(times, lo, more)
  {
    if times == [] {
    } else {
      WithinLess(times[..|times| - 1], lo, hi, more);
    }
  }

  function AllAt(n: nat, t: real): (rs: seq<Request>)
    ensures |rs| == n
  {
    Repeat(n, Request("a", t))
  }

  /** As many requests at once as the limit allows, one that evicts them all, and one that comes late. */
  function LateStream(limit: Limit, late: real): seq<Request> {
    AllAt(limit.max, 0.0) + [Request("a", limit.window)] + [Request("a", late)]
  }

  /** The address "a" after these requests: its list, what was accepted from it, what it sent. */
  ghost predicate Reached(limit: Limit, rs: seq<Request>, list: seq<real>, accepted: seq<real>, sent: seq<real>) {
    && Lookup(Run(limit, rs), "a") == list
    && AcceptedTimes(limit, rs, "a") == accepted
    && TimesOf(rs, "a") == sent
  }

  lemma OneMore(limit: Limit, rs: seq<Request>, now: real, list: seq<real>, accepted: seq<real>, sent: seq<real>, ok: bool)
    requires Reached(limit, rs, list, accepted, sent) && (ok <==> Admits(limit, list, now))
    ensures Reached(limit, rs + [Request("a", now)], Extend(After(list, now - limit.window), now, ok),
                    Extend(accepted, now, ok), sent + [now])
  {
    var r := Request("a", now);
    assert (rs + [r])[..|rs|] == rs;
    LookupAfter(limit, Run(limit, rs), r, "a");
  }

  /** An accepted request that evicts nothing. */
  lemma OneMoreKept(limit: Limit, rs: seq<Request>, now: real, list: seq<real>, accepted: seq<real>, sent: seq<real>)
    requires Reached(limit, rs, list, accepted, sent) && |list| < limit.max
    requires forall i :: 0 <= i < |list| ==> list[i] > now - limit.window
    ensures Reached(limit, rs + [Request("a", now)], list + [now], accepted + [now], sent + [now])
  {
    AfterAll(list, now - limit.window);
    OneMore(limit, rs, now, list, accepted, sent, true);
  }

  /** An accepted request that evicts everything. */
  lemma OneMoreAlone(limit: Limit, rs: seq<Request>, now: real, list: seq<real>, accepted: seq<real>, sent: seq<real>)
    requires Reached(limit, rs, list, accepted, sent) && limit.max > 0
    requires forall i :: 0 <= i < |list| ==> list[i] <= now - limit.window
    ensures Reached(limit, rs + [Request("a", now)], [now], accepted + [now], sent + [now])
  {
    AfterNone(list, now - limit.window);
    OneMore(limit, rs, now, list, accepted, sent, true);
    assert [] + [now] == [now];
  }

  lemma OneMoreSame(n: nat, t: real)
    ensures AllAt(n + 1, t) == AllAt(n, t) + [Request("a", t)] && Repeat(n + 1, t) == Repeat(n, t) + [t]
  {
  }

  lemma NothingSent(limit: Limit)
    ensures Reached(limit, [], [], [], [])
  {
  }

  lemma {:induction false} SameAccepted(limit: Limit, n: nat, t: real)
    requires limit.window > 0.0 && n <= limit.max
    ensures Reached(limit, AllAt(n, t), Repeat(n, t), Repeat(n, t), Repeat(n, t))
  {
    if n == 0 {
      NothingSent(limit);
    } else {
      var rs, times := AllAt(n - 1, t), Repeat(n - 1, t);
      SameAccepted(limit, n - 1, t);
      OneMoreKept(limit, rs, t, times, times, times);
      OneMoreSame(n - 1, t);
    }
  }

  lemma ZerosEvicted(limit: Limit)
    requires limit.max >= 1 && limit.window > 0.0
    ensures var sent := Repeat(limit.max, 0.0) + [limit.window];
            Reached(limit, AllAt(limit.max, 0.0) + [Request("a", limit.window)], [limit.window], sent, sent)
  {
    var zeros := Repeat(limit.max, 0.0);
    SameAccepted(limit, limit.max, 0.0);
    OneMoreAlone(limit, AllAt(limit.max, 0.0), limit.window, zeros, zeros, zeros);
  }

  lemma LateStep(limit: Limit, rs: seq<Request>, w: real, late: real, sent: seq<real>)
    requires Reached(limit, rs, [w], sent, sent) && limit.max >= 2 && w > late - limit.window
    ensures Reached(limit, rs + [Request("a", late)], [w] + [late], sent + [late], sent + [late])
  {
    OneMoreKept(limit, rs, late, [w], sent, sent);
  }

  lemma LateAccepted(limit: Limit, late: real)
    requires limit.max >= 2 && limit.window > 0.0 && late <= limit.window
    ensures var all := Repeat(limit.max, 0.0) + [limit.window] + [late];
            Reached(limit, LateStream(limit, late), [limit.window] + [late], all, all)
  {
    ZerosEvicted(limit);
    LateStep(limit, AllAt(limit.max, 0.0) + [Request("a", limit.window)], limit.window, late, Repeat(limit.max, 0.0) + [limit.window]);
  }

  lemma {:induction false} SameWithin(n: nat, t: real, lo: real, hi: real)
    ensures Within(Repeat(n, t), lo, hi) == if lo < t <= hi then n else 0
  {
    if n == 0 {
    } else {
      SameWithin(n - 1, t, lo, hi);
      assert Repeat(n, t)[..n - 1] == Repeat(n - 1, t);
    }
  }

  /**
    `now` is read before the lock is taken, so a request may get the lock after a later one, which
    evicted what it should count.  Then every window longer than the configured one less the skew
    can be exceeded; a window of the configured length as soon as there is any skew.
   */
  lemma OutOfOrderExceeds(limit: Limit, skew: real, length: real)
    requires limit.max >= 2 && limit.window > 0.0 && 0.0 <= skew <= limit.window
    requires length > limit.window - skew
    ensures Skewed(TimesOf(LateStream(limit, limit.window - skew), "a"), skew)
    ensures !WindowHolds(limit, LateStream(limit, limit.window - skew), "a", limit.window - skew - length, length)
  {
    var late := limit.window - skew;
    var all := Repeat(limit.max, 0.0) + [limit.window] + [late];
    SentAndAccepted(limit, late, all);
    LateExceeds(limit, LateStream(limit, late), all, skew, late, length);
  }

  lemma LateExceeds(limit: Limit, rs: seq<Request>, all: seq<real>, skew: real, late: real, length: real)
    requires limit.window > 0.0 && 0.0 <= skew <= limit.window && late == limit.window - skew < length
    requires all == Repeat(limit.max, 0.0) + [limit.window] + [late]
    requires TimesOf(rs, "a") == all && AcceptedTimes(limit, rs, "a") == all
    ensures Skewed(TimesOf(rs, "a"), skew) && !WindowHolds(limit, rs, "a", late - length, length)
  {
    LateIsSkewed(limit.max, limit.window, skew, late);
    TooManyWithin(limit.max, limit.window, late, late - length, length);
  }

  lemma SentAndAccepted(limit: Limit, late: real, all: seq<real>)
    requires limit.max >= 2 && limit.window > 0.0 && late <= limit.window
    requires all == Repeat(limit.max, 0.0) + [limit.window] + [late]
    ensures TimesOf(LateStream(limit, late), "a") == all && AcceptedTimes(limit, LateStream(limit, late), "a") == all
  {
    LateAccepted(limit, late);
  }

  lemma LateIsSkewed(n: nat, w: real, skew: real, late: real)
    requires 0.0 <= skew <= w && late == w - skew
    ensures Skewed(Repeat(n, 0.0) + [w] + [late], skew)
  {
    var all := Repeat(n, 0.0) + [w] + [late];
    assert forall i :: 0 <= i < n ==> all[i] == 0.0;
  }

  lemma TooManyWithin(n: nat, w: real, late: real, lo: real, length: real)
    requires 0.0 <= late <= w && length > late && lo == late - length
    ensures Within(Repeat(n, 0.0) + [w] + [late], lo, lo + length) > n
  {
    var zeros, hi := Repeat(n, 0.0), lo + length;
    SameWithin(n, 0.0, lo, hi);
    WithinExtend(zeros, w, true, lo, hi);
    WithinExtend(zeros + [w], late, true, lo, hi);
  }

  /** The guarantee under skew is exact, for limits above one. */
  lemma SkewIsExact(limit: Limit, skew: real, length: real)
    requires limit.max >= 2 && limit.window > 0.0 && 0.0 <= skew <= limit.window
    ensures (forall rs, ip, lo :: Skewed(TimesOf(rs, ip), skew) ==> WindowHolds(limit, rs, ip, lo, length))
            <==> length <= limit.window - skew
  {
    if length <= limit.window - skew {
      forall rs, ip, lo | Skewed(TimesOf(rs, ip), skew) ensures WindowHolds(limit, rs, ip, lo, length) {
        NoSkewedWindowExceeds(limit, rs, ip, lo, skew);
        WithinLess(AcceptedTimes(limit, rs, ip), lo, lo + length, lo + limit.window - skew);
      }
    } else {
      OutOfOrderExceeds(limit, skew, length);
    }
  }

  /** With a limit of one the full window holds on every stream, and no longer one does. */
  lemma OneIsExact(limit: Limit, length: real)
    requires limit.max == 1 && limit.window > 0.0
    ensures (forall rs, ip, lo :: WindowHolds(limit, rs, ip, lo, length)) <==> length <= limit.window
  {
    if length <= limit.window {
      forall rs, ip, lo ensures WindowHolds(limit, rs, ip, lo, length) {
        NoWindowExceeds(limit, rs, ip, lo);
        WithinLess(AcceptedTimes(limit, rs, ip), lo, lo + length, lo + limit.window);
      }
    } else {
      ZerosEvicted(limit);
      var rs := AllAt(limit.max, 0.0) + [Request("a", limit.window)];
      var lo := limit.window - length;
      SameWithin(limit.max, 0.0, lo, lo + length);
      WithinExtend(Repeat(limit.max, 0.0), limit.window, true, lo, lo + length);
      assert !WindowHolds(limit, rs, "a", lo, length);
    }
  }

  // ----- Any delay makes the list and the history disagree -----

  ghost predicate DecidesAlike(limit: Limit, rs: seq<Request>, r: Request) {
    Admits(limit, Lookup(Run(limit, rs), r.ip), r.now) <==> Admits(limit, AcceptedTimes(limit, rs, r.ip), r.now)
  }

  lemma MoreSkew(times: seq<real>, less: real, more: real)
    requires Skewed(times, less) && less <= more
    ensures Skewed(times, more)
  {
  }

  /** A list that is all in the window of a request at `now` is counted in full. */
  lemma AllCount(limit: Limit, list: seq<real>, now: real)
    requires forall i :: 0 <= i < |list| ==> list[i] > now - limit.window
    ensures Admits(limit, list, now) <==> |list| < limit.max
  {
    AfterAll(list, now - limit.window);
  }

  lemma ListAdmits(limit: Limit, w: real, zeros: seq<real>, late: real)
    requires limit.max >= 2 && |zeros| == limit.max && late - limit.window < 0.0 < w
    requires forall i :: 0 <= i < |zeros| ==> zeros[i] == 0.0
    ensures Admits(limit, [w], late) && !Admits(limit, zeros + [w], late)
  {
    AllCount(limit, [w], late);
    AllCount(limit, zeros + [w], late);
  }

  /** The late request of `LateStream` is accepted, although its window is full. */
  lemma LateDisagrees(limit: Limit, delay: real)
    requires limit.max >= 2 && 0.0 < delay <= limit.window
    ensures var rs := AllAt(limit.max, 0.0) + [Request("a", limit.window)];
            var r := Request("a", limit.window - delay);
            !DecidesAlike(limit, rs, r) && Skewed(TimesOf(rs, r.ip) + [r.now], delay)
  {
    ZerosEvicted(limit);
    LateIsSkewed(limit.max, limit.window, delay, limit.window - delay);
    ListAdmits(limit, limit.window, Repeat(limit.max, 0.0), limit.window - delay);
  }

  /** For limits above one, the limiter decides by the full history on all streams if and only if nothing is late. */
  lemma HistoryIsExact(limit: Limit, skew: real)
    requires limit.max >= 2 && limit.window > 0.0 && skew >= 0.0
    ensures (forall rs, r: Request :: Skewed(TimesOf(rs, r.ip) + [r.now], skew) ==> DecidesAlike(limit, rs, r)) <==> skew == 0.0
  {
    if skew == 0.0 {
      forall rs, r: Request | Skewed(TimesOf(rs, r.ip) + [r.now], skew) ensures DecidesAlike(limit, rs, r) {
        NoneMuchLater(rs, r, skew);
        DecidesByHistory(limit, rs, r);
      }
    } else {
      var delay := if skew < limit.window then skew else limit.window;
      var rs, r := AllAt(limit.max, 0.0) + [Request("a", limit.window)], Request("a", limit.window - delay);
      LateDisagrees(limit, delay);
      MoreSkew(TimesOf(rs, r.ip) + [r.now], delay, skew);
    }
  }

  // ----- Any delay can cost half of what could be accepted -----

  /** These picks do not break the limit and take more than the limiter did. */
  ghost predicate Beaten(limit: Limit, rs: seq<Request>, ip: string, picks: seq<bool>) {
    && |picks| == |TimesOf(rs, ip)|
    && Obeys(limit, Chosen(TimesOf(rs, ip), picks))
    && |Chosen(TimesOf(rs, ip), picks)| > |AcceptedTimes(limit, rs, ip)|
  }

  /**
    As many requests as the limit allows, `delay` after as many that come late, and as many a
    window after those.
   */
  function HalfLost(limit: Limit, delay: real): seq<Request> {
    AllAt(limit.max, delay) + AllAt(limit.max, 0.0) + AllAt(limit.max, limit.window)
  }

  /** A request that evicts nothing and finds the list full. */
  lemma OneMoreTurnedAway(limit: Limit, rs: seq<Request>, now: real, list: seq<real>, accepted: seq<real>, sent: seq<real>)
    requires Reached(limit, rs, list, accepted, sent) && |list| >= limit.max
    requires forall i :: 0 <= i < |list| ==> list[i] > now - limit.window
    ensures Reached(limit, rs + [Request("a", now)], list, accepted, sent + [now])
  {
    AfterAll(list, now - limit.window);
    OneMore(limit, rs, now, list, accepted, sent, false);
  }

  lemma OneMoreAfter(rs: seq<Request>, sent: seq<real>, n: nat, t: real)
    ensures rs + AllAt(0, t) == rs && sent + Repeat(0, t) == sent
    ensures rs + AllAt(n + 1, t) == rs + AllAt(n, t) + [Request("a", t)]
    ensures sent + Repeat(n + 1, t) == sent + Repeat(n, t) + [t]
  {
    OneMoreSame(n, t);
  }

  lemma {:induction false} SameTurnedAway(limit: Limit, rs: seq<Request>, n: nat, t: real,
                                          list: seq<real>, accepted: seq<real>, sent: seq<real>)
    requires Reached(limit, rs, list, accepted, sent) && |list| >= limit.max
    requires forall i :: 0 <= i < |list| ==> list[i] > t - limit.window
    ensures Reached(limit, rs + AllAt(n, t), list, accepted, sent + Repeat(n, t))
  {
    if n == 0 {
      OneMoreAfter(rs, sent, 0, t);
    } else {
      SameTurnedAway(limit, rs, n - 1, t, list, accepted, sent);
      OneMoreTurnedAway(limit, rs + AllAt(n - 1, t), t, list, accepted, sent + Repeat(n - 1, t));
      OneMoreAfter(rs, sent, n - 1, t);
    }
  }

  lemma HalfIsLost(limit: Limit, delay: real)
    requires limit.window > 0.0 && 0.0 < delay <= limit.window
    ensures AcceptedTimes(limit, HalfLost(limit, delay), "a") == Repeat(limit.max, delay)
    ensures TimesOf(HalfLost(limit, delay), "a")
            == Repeat(limit.max, delay) + Repeat(limit.max, 0.0) + Repeat(limit.max, limit.window)
  {
    var n, first := limit.max, Repeat(limit.max, delay);
    SameAccepted(limit, n, delay);
    SameTurnedAway(limit, AllAt(n, delay), n, 0.0, first, first, first);
    SameTurnedAway(limit, AllAt(n, delay) + AllAt(n, 0.0), n, limit.window, first, first, first + Repeat(n, 0.0));
  }

  lemma {:induction false} ChosenConcat(a: seq<real>, p: seq<bool>, b: seq<real>, q: seq<bool>)
    requires |p| == |a| && |q| == |b|
    ensures Chosen(a + b, p + q) == Chosen(a, p) + Chosen(b, q)
  {
    if b == [] {
      assert a + b == a && p + q == p;
    } else {
      var n := |b| - 1;
      assert (a + b)[..|a + b| - 1] == a + b[..n] && (p + q)[..|p + q| - 1] == p + q[..n];
      ChosenConcat(a, p, b[..n], q[..n]);
    }
  }

  lemma {:induction false} ChosenRepeat(times: seq<real>, pick: bool)
    ensures Chosen(times, Repeat(|times|, pick)) == if pick then times else []
  {
    if times == [] {
    } else {
      var n := |times| - 1;
      ChosenRepeat(times[..n], pick);
      assert Repeat(n + 1, pick)[..n] == Repeat(n, pick);
    }
  }

  lemma {:induction false} WithinConcat(a: seq<real>, b: seq<real>, lo: real, hi: real)
    ensures Within(a + b, lo, hi) == Within(a, lo, hi) + Within(b, lo, hi)
  {
    if b == [] {
      assert a + b == a;
    } else {
      assert (a + b)[..|a + b| - 1] == a + b[..|b| - 1];
      WithinConcat(a, b[..|b| - 1], lo, hi);
    }
  }

  lemma AWindowApart(limit: Limit)
    requires limit.window > 0.0
    ensures Obeys(limit, Repeat(limit.max, 0.0) + Repeat(limit.max, limit.window))
  {
    var n, w := limit.max, limit.window;
    forall lo: real ensures WindowObeys(limit, Repeat(n, 0.0) + Repeat(n, w), lo) {
      WithinConcat(Repeat(n, 0.0), Repeat(n, w), lo, lo + w);
      SameWithin(n, 0.0, lo, lo + w);
      SameWithin(n, w, lo, lo + w);
    }
  }

  /** A policy that waits for the late requests takes twice as many. */
  lemma TwiceAsMany(n: nat, a: seq<real>, b: seq<real>, c: seq<real>)
    requires |a| == |b| == |c| == n
    ensures Chosen(a + b + c, Repeat(n, false) + Repeat(n, true) + Repeat(n, true)) == b + c
  {
    ChosenConcat(a + b, Repeat(n, false) + Repeat(n, true), c, Repeat(n, true));
    ChosenConcat(a, Repeat(n, false), b, Repeat(n, true));
    ChosenRepeat(a, false);
    ChosenRepeat(b, true);
    ChosenRepeat(c, true);
    assert [] + b == b;
  }

  lemma HalfIsSkewed(n: nat, delay: real, w: real)
    requires 0.0 < delay <= w
    ensures Skewed(Repeat(n, delay) + Repeat(n, 0.0) + Repeat(n, w), delay)
  {
    var all := Repeat(n, delay) + Repeat(n, 0.0) + Repeat(n, w);
    forall i | 0 <= i < |all| ensures all[i] == if i < n then delay else if i < 2 * n then 0.0 else w {}
  }

  /** On this stream the limiter accepts `max` requests, and a policy within the limit `2 * max`. */
  lemma OutOfOrderTurnsAway(limit: Limit, delay: real)
    requires limit.max >= 1 && 0.0 < delay <= limit.window
    ensures Skewed(TimesOf(HalfLost(limit, delay), "a"), delay)
    ensures |AcceptedTimes(limit, HalfLost(limit, delay), "a")| == limit.max
    ensures exists picks :: Beaten(limit, HalfLost(limit, delay), "a", picks)
                            && |Chosen(TimesOf(HalfLost(limit, delay), "a"), picks)| == 2 * limit.max
  {
    var n, rs := limit.max, HalfLost(limit, delay);
    var picks := Repeat(n, false) + Repeat(n, true) + Repeat(n, true);
    HalfIsLost(limit, delay);
    HalfIsSkewed(n, delay, limit.window);
    TwiceAsMany(n, Repeat(n, delay), Repeat(n, 0.0), Repeat(n, limit.window));
    AWindowApart(limit);
    assert Beaten(limit, rs, "a", picks);
  }

  /** The limiter accepts as many as any policy within the limit, on all streams, if and only if nothing is late. */
  lemma AcceptanceIsExact(limit: Limit, skew: real)
    requires limit.max >= 1 && limit.window > 0.0 && skew >= 0.0
    ensures (forall rs, ip, picks :: Skewed(TimesOf(rs, ip), skew) ==> !Beaten(limit, rs, ip, picks)) <==> skew == 0.0
  {
    if skew == 0.0 {
      forall rs, ip, picks | Skewed(TimesOf(rs, ip), skew) ensures !Beaten(limit, rs, ip, picks) {
        NeverBeaten(limit, rs, ip, picks);
      }
    } else {
      var delay := if skew < limit.window then skew else limit.window;
      OutOfOrderTurnsAway(limit, delay);
      MoreSkew(TimesOf(HalfLost(limit, delay), "a"), delay, skew);
    }
  }

  lemma NeverBeaten(limit: Limit, rs: seq<Request>, ip: string, picks: seq<bool>)
    requires limit.window > 0.0 && Skewed(TimesOf(rs, ip), 0.0)
    ensures !Beaten(limit, rs, ip, picks)
  {
    if |picks| == |TimesOf(rs, ip)| && Obeys(limit, Chosen(TimesOf(rs, ip), picks)) {
      AcceptsAtLeastAsMany(limit, rs, ip, picks, |rs|);
      assert rs[..|rs|] == rs && picks[..|TimesOf(rs, ip)|] == picks;
    }
  }
}
