/** The per-visitor limiter of internal/middleware/ratelimit.go.

    `Served`, `Swept` and `After` say what the mutable limiter computes; `Burst` says, from one visitor's own
    requests alone, what it is for. Times are integers in one unit. A request reads the clock twice
    (`seen`, then `stamp`); a cleanup pass reads it once for every entry it visits. */
module RateLimiting {
  import opened Options

  datatype Entry = Entry(count: int, lastSeen: int)

  type Table = map<string, Entry>

  datatype Event =
    | Request(ip: string, seen: int, stamp: int)
    | Cleanup(start: int, finish: int, at: map<string, int>)
  {
    function From(): int {
      if Request? then seen else start
    }

    function Until(): int {
      if Request? then stamp else finish
    }

    ghost predicate WellTimed() {
      From() <= Until() && (Cleanup? ==> forall ip :: ip in at ==> start <= at[ip] <= finish)
    }
  }

  /** All readings of an event come no later than all readings of the events after it. */
  ghost predicate MonotoneClock(events: seq<Event>) {
    && (forall i :: 0 <= i < |events| ==> events[i].WellTimed())
    && (forall i, j :: 0 <= i < j < |events| ==> events[i].Until() <= events[j].From())
  }

  // ---------------------------------------------------------------------------
  // What the limiter computes
  // ---------------------------------------------------------------------------

  function Served(table: Table, ip: string, seen: int, stamp: int, limit: int, window: int): (Table, bool) {
    if ip !in table || seen - table[ip].lastSeen > window then
      (table[ip := Entry(1, stamp)], true)
    else
      var count := table[ip].count + 1;
      (table[ip := Entry(count, stamp)], count <= limit)
  }

  /** A cleanup pass in which the entry of `ip` was examined at time `at[ip]`. */
  function Swept(table: Table, at: map<string, int>, window: int): Table {
    map ip | ip in table && !(ip in at && at[ip] - table[ip].lastSeen > window * 2) :: table[ip]
  }

  function After(events: seq<Event>, limit: int, window: int): Table {
    if events == [] then map[]
    else
      var before := After(events[..|events| - 1], limit, window);
      match events[|events| - 1]
      case Request(ip, seen, stamp) => Served(before, ip, seen, stamp, limit, window).0
      case Cleanup(_, _, at) => Swept(before, at, window)
  }

  predicate IsRequestOf(e: Event, ip: string) {
    e.Request? && e.ip == ip
  }

  /** What the limiter answered to the requests of one visitor, in order. */
  function Decisions(events: seq<Event>, ip: string, limit: int, window: int): seq<bool> {
    if events == [] then []
    else
      var init, e := events[..|events| - 1], events[|events| - 1];
      var answers := Decisions(init, ip, limit, window);
      if IsRequestOf(e, ip)
      then answers + [Served(After(init, limit, window), ip, e.seen, e.stamp, limit, window).1]
      else answers
  }

  // ---------------------------------------------------------------------------
  // What it means, from one visitor's requests alone
  // ---------------------------------------------------------------------------

  function Mine(events: seq<Event>, ip: string): (mine: seq<Event>)
    ensures forall k :: 0 <= k < |mine| ==> IsRequestOf(mine[k], ip)
  {
    if events == [] then []
    else
      var init, e := events[..|events| - 1], events[|events| - 1];
      if IsRequestOf(e, ip) then Mine(init, ip) + [e] else Mine(init, ip)
  }

  function WithoutCleanup(events: seq<Event>): seq<Event> {
    if events == [] then []
    else
      var init, e := events[..|events| - 1], events[|events| - 1];
      if e.Request? then WithoutCleanup(init) + [e] else WithoutCleanup(init)
  }

  /** How many requests the run of requests ending at the last one has, where a pause longer than the
      window starts a new run. Rejected requests count too. */
  function Burst(mine: seq<Event>, window: int): nat
    requires mine != []
  {
    var last := |mine| - 1;
    if last == 0 || mine[last].From() - mine[last - 1].Until() > window then 1
    else Burst(mine[..last], window) + 1
  }

  predicate Allowed(mine: seq<Event>, limit: int, window: int)
    requires mine != []
  {
    Burst(mine, window) == 1 || Burst(mine, window) <= limit
  }

  function AllowedEach(mine: seq<Event>, limit: int, window: int): (r: seq<bool>)
    ensures |r| == |mine|
  {
    seq(|mine|, i requires 0 <= i < |mine| => Allowed(mine[..i + 1], limit, window))
  }

  function CountTrue(s: seq<bool>): nat {
    if s == [] then 0 else CountTrue(s[..|s| - 1]) + if s[|s| - 1] then 1 else 0
  }

  // ---------------------------------------------------------------------------
  // The table remembers exactly what the visitor's own requests say
  // ---------------------------------------------------------------------------

  /** An entry holds the length and the end of the visitor's current burst; a missing entry means that the
      next request starts a new burst anyway. */
  ghost predicate Remembers(table: Table, events: seq<Event>, ip: string, window: int) {
    var mine := Mine(events, ip);
    if ip in table then
      mine != [] && table[ip] == Entry(Burst(mine, window), mine[|mine| - 1].Until())
    else
      mine == [] || (events != [] && events[|events| - 1].Until() - mine[|mine| - 1].Until() > window)
  }

  lemma {:induction false} MineIsRecent(events: seq<Event>, ip: string)
    requires MonotoneClock(events)
    ensures var mine := Mine(events, ip);
            mine != [] ==> mine[|mine| - 1].Until() <= events[|events| - 1].Until()
  {
    if events != [] {
      var init, e := events[..|events| - 1], events[|events| - 1];
      MineIsRecent(init, ip);
      assert e.WellTimed();
      if init != [] {
        assert init[|init| - 1] == events[|events| - 2];
        assert events[|events| - 2].Until() <= e.From();
      }
    }
  }

  lemma {:induction false} TableRemembers(events: seq<Event>, ip: string, limit: int, window: int)
    requires MonotoneClock(events)
    ensures Remembers(After(events, limit, window), events, ip, window)
  {
    if events == [] {
    } else {
      var init, e := events[..|events| - 1], events[|events| - 1];
      TableRemembers(init, ip, limit, window);
      MineIsRecent(init, ip);
      var mine := Mine(init, ip);
      assert e.WellTimed();
      if init != [] {
        assert init[|init| - 1] == events[|events| - 2];
        assert events[|events| - 2].Until() <= e.From();
      }
      if IsRequestOf(e, ip) {
        assert Mine(events, ip) == mine + [e];
        assert (mine + [e])[..|mine|] == mine;
      } else {
        assert Mine(events, ip) == mine;
      }
    }
  }

  /** Since the visitor's last request, a cleanup pass has found it unseen for more than two windows. */
  ghost predicate Forgotten(events: seq<Event>, ip: string, window: int) {
    events != [] &&
    var init, e := events[..|events| - 1], events[|events| - 1];
    var mine := Mine(init, ip);
    !IsRequestOf(e, ip) &&
    (Forgotten(init, ip, window) ||
     (e.Cleanup? && ip in e.at && mine != [] && e.at[ip] - mine[|mine| - 1].stamp > 2 * window))
  }

  /** The table holds exactly the visitors that have sent a request and that no cleanup has dropped since: a pass
      drops those unseen for more than two windows and no others. */
  lemma {:induction false} TableHolds(events: seq<Event>, ip: string, limit: int, window: int)
    requires MonotoneClock(events)
    ensures ip in After(events, limit, window) <==> Mine(events, ip) != [] && !Forgotten(events, ip, window)
  {
    if events != [] {
      TableHolds(events[..|events| - 1], ip, limit, window);
      TableRemembers(events[..|events| - 1], ip, limit, window);
    }
  }

  /** Every answer is the one the visitor's own requests call for, whatever other visitors and the cleanup did. */
  lemma {:induction false} DecisionsAreBursts(events: seq<Event>, ip: string, limit: int, window: int)
    requires MonotoneClock(events)
    ensures Decisions(events, ip, limit, window) == AllowedEach(Mine(events, ip), limit, window)
  {
    if events == [] {
    } else {
      var init, e := events[..|events| - 1], events[|events| - 1];
      DecisionsAreBursts(init, ip, limit, window);
      var mine := Mine(init, ip);
      if IsRequestOf(e, ip) {
        LatestDecision(init, e, limit, window);
        assert events == init + [e];
        assert Mine(events, ip) == mine + [e];
        AllowedOneMore(mine, e, limit, window);
      }
    }
  }

  lemma AllowedOneMore(mine: seq<Event>, e: Event, limit: int, window: int)
    ensures AllowedEach(mine + [e], limit, window) ==
            AllowedEach(mine, limit, window) + [Allowed(mine + [e], limit, window)]
  {
    assert (mine + [e])[..|mine| + 1] == mine + [e];
    forall i | 0 <= i < |mine|
      ensures AllowedEach(mine + [e], limit, window)[i] == AllowedEach(mine, limit, window)[i]
    {
      assert (mine + [e])[..i + 1] == mine[..i + 1];
    }
  }

  lemma LatestDecision(before: seq<Event>, e: Event, limit: int, window: int)
    requires e.Request? && MonotoneClock(before + [e])
    ensures var mine := Mine(before, e.ip) + [e];
            Served(After(before, limit, window), e.ip, e.seen, e.stamp, limit, window).1 <==> Allowed(mine, limit, window)
  {
    var all := before + [e];
    assert all[|before|] == e;
    forall i | 0 <= i < |before| ensures before[i] == all[i] {}
    TableRemembers(before, e.ip, limit, window);
    var mine := Mine(before, e.ip);
    assert (mine + [e])[..|mine|] == mine;
    if before != [] {
      assert all[|before| - 1].Until() <= all[|before|].From();
    }
  }

  // ---------------------------------------------------------------------------
  // Cleanup and other visitors cannot be observed
  // ---------------------------------------------------------------------------

  lemma {:induction false} FilteringKeepsMine(events: seq<Event>, ip: string)
    ensures Mine(WithoutCleanup(events), ip) == Mine(events, ip)
    ensures Mine(Mine(events, ip), ip) == Mine(events, ip)
  {
    if events != [] {
      var init, e := events[..|events| - 1], events[|events| - 1];
      FilteringKeepsMine(init, ip);
      if e.Request? {
        assert WithoutCleanup(events)[..|WithoutCleanup(events)| - 1] == WithoutCleanup(init);
      }
      if IsRequestOf(e, ip) {
        assert Mine(events, ip)[..|Mine(events, ip)| - 1] == Mine(init, ip);
      }
    }
  }

  lemma {:induction false} FilteringKeepsClock(events: seq<Event>, ip: string)
    requires MonotoneClock(events)
    ensures MonotoneClock(WithoutCleanup(events)) && MonotoneClock(Mine(events, ip))
    ensures forall e :: e in WithoutCleanup(events) || e in Mine(events, ip) ==> e in events
  {
    if events != [] {
      var init, e := events[..|events| - 1], events[|events| - 1];
      assert events == init + [e];
      FilteringKeepsClock(init, ip);
      SnocKeepsClock(WithoutCleanup(init), init, e);
      SnocKeepsClock(Mine(init, ip), init, e);
    }
  }

  lemma SnocKeepsClock(kept: seq<Event>, init: seq<Event>, e: Event)
    requires MonotoneClock(init + [e]) && MonotoneClock(kept)
    requires forall x :: x in kept ==> x in init
    ensures MonotoneClock(kept + [e])
  {
    var all := init + [e];
    assert all[|init|] == e;
    forall i | 0 <= i < |kept| ensures kept[i].Until() <= e.From() {
      assert kept[i] in init;
      var j :| 0 <= j < |init| && init[j] == kept[i];
      assert all[j] == init[j];
    }
  }

  /** A limiter that cleans up at arbitrary moments answers every request like one that never cleans up. */
  lemma CleanupIsInvisible(events: seq<Event>, ip: string, limit: int, window: int)
    requires MonotoneClock(events)
    ensures Decisions(WithoutCleanup(events), ip, limit, window) == Decisions(events, ip, limit, window)
  {
    FilteringKeepsClock(events, ip);
    FilteringKeepsMine(events, ip);
    DecisionsAreBursts(events, ip, limit, window);
    DecisionsAreBursts(WithoutCleanup(events), ip, limit, window);
  }

  /** The answers to one visitor are those of a limiter that is fed only that visitor's requests. */
  lemma VisitorsAreIsolated(events: seq<Event>, ip: string, limit: int, window: int)
    requires MonotoneClock(events)
    ensures Decisions(Mine(events, ip), ip, limit, window) == Decisions(events, ip, limit, window)
  {
    FilteringKeepsClock(events, ip);
    FilteringKeepsMine(events, ip);
    DecisionsAreBursts(events, ip, limit, window);
    DecisionsAreBursts(Mine(events, ip), ip, limit, window);
  }

  // ---------------------------------------------------------------------------
  // The sliding-window bound
  // ---------------------------------------------------------------------------

  /** Requests within one window of the first all belong to the first one's burst. */
  lemma {:induction false} BurstGrows(mine: seq<Event>, first: nat, last: nat, window: int)
    requires MonotoneClock(mine) && first <= last < |mine|
    requires mine[last].From() - mine[first].Until() <= window
    ensures Burst(mine[..last + 1], window) == Burst(mine[..first + 1], window) + (last - first)
    decreases last
  {
    if first < last {
      assert mine[last - 1].WellTimed() && mine[last].WellTimed();
      assert first < last - 1 ==> mine[first].Until() <= mine[last - 1].From();
      BurstGrows(mine, first, last - 1, window);
      assert mine[..last + 1][..last] == mine[..last];
    }
  }

  lemma {:induction false} FewAllowed(mine: seq<Event>, first: nat, last: nat, limit: int, window: int)
    requires MonotoneClock(mine) && first <= last < |mine|
    requires mine[last].From() - mine[first].Until() <= window
    ensures var count := CountTrue(AllowedEach(mine, limit, window)[first..last + 1]);
            count <= (if limit < 1 then 1 else limit) && count <= last - first + 1
    decreases last
  {
    var answers := AllowedEach(mine, limit, window);
    var span := answers[first..last + 1];
    assert span[..|span| - 1] == answers[first..last];
    if first < last {
      assert mine[last - 1].WellTimed() && mine[last].WellTimed();
      assert first < last - 1 ==> mine[first].Until() <= mine[last - 1].From();
      FewAllowed(mine, first, last - 1, limit, window);
      BurstGrows(mine, first, last, window);
      assert span[|span| - 1] == Allowed(mine[..last + 1], limit, window);
    }
  }

  /** For any arrivals of any visitors and any interleaved cleanups, the requests of one visitor from the one
      stamped at the start of a window to the one seen at its end hold at most max(1, limit) accepted ones. */
  lemma SlidingWindow(events: seq<Event>, ip: string, limit: int, window: int, first: nat, last: nat)
    requires MonotoneClock(events)
    requires first <= last < |Mine(events, ip)|
    requires Mine(events, ip)[last].seen - Mine(events, ip)[first].stamp <= window
    ensures |Decisions(events, ip, limit, window)| == |Mine(events, ip)|
    ensures CountTrue(Decisions(events, ip, limit, window)[first..last + 1]) <= if limit < 1 then 1 else limit
  {
    FilteringKeepsClock(events, ip);
    DecisionsAreBursts(events, ip, limit, window);
    FewAllowed(Mine(events, ip), first, last, limit, window);
  }

  // ---------------------------------------------------------------------------
  // When "allows `limit` requests per window" is what the code does
  // ---------------------------------------------------------------------------

  /** How many of the requests lie in the window that ends with the last one. */
  function InWindow(mine: seq<Event>, last: Event, window: int): nat {
    if mine == [] then 0
    else
      InWindow(mine[..|mine| - 1], last, window)
      + if last.From() - mine[|mine| - 1].Until() <= window then 1 else 0
  }

  /** Whatever happens, a request that is among the visitor's first `limit` ones of a window is accepted. */
  ghost predicate KeepsPromise(limit: int, window: int) {
    forall events: seq<Event>, ip: string, k: nat | MonotoneClock(events) && k < |Mine(events, ip)| ::
      PromiseAt(events, ip, k, limit, window)
  }

  ghost predicate PromiseAt(events: seq<Event>, ip: string, k: nat, limit: int, window: int) {
    k < |Mine(events, ip)| == |Decisions(events, ip, limit, window)| &&
    (InWindow(Mine(events, ip)[..k + 1], Mine(events, ip)[k], window) <= limit ==>
       Decisions(events, ip, limit, window)[k])
  }

  lemma FirstInWindowIsAllowed(mine: seq<Event>, limit: int, window: int)
    requires MonotoneClock(mine) && mine != [] && (limit <= 1 || window < 0)
    requires InWindow(mine, mine[|mine| - 1], window) <= limit
    ensures Allowed(mine, limit, window)
  {
    var last := |mine| - 1;
    assert mine[last].WellTimed();
    if last > 0 {
      assert mine[last - 1].Until() <= mine[last].From();
      assert mine[..last][last - 1] == mine[last - 1];
      assert InWindow(mine[..last], mine[last], window) >=
             if mine[last].From() - mine[last - 1].Until() <= window then 1 else 0;
    }
  }

  lemma {:induction false} PrefixOfClock(mine: seq<Event>, k: nat)
    requires MonotoneClock(mine) && k <= |mine|
    ensures MonotoneClock(mine[..k])
  {
  }

  /** A client whose requests come exactly one window after the previous one was stamped. */
  function Steady(ip: string, window: int, n: nat): (events: seq<Event>)
    ensures |events| == n
  {
    seq(n, i => Request(ip, i * (window + 1), i * (window + 1) + 1))
  }

  lemma {:induction false} SteadyBurst(ip: string, window: int, n: nat)
    requires n > 0
    ensures Burst(Steady(ip, window, n), window) == n
  {
    if n > 1 {
      SteadyBurst(ip, window, n - 1);
      assert Steady(ip, window, n)[..n - 1] == Steady(ip, window, n - 1);
      assert (n - 1) * (window + 1) - (n - 2) * (window + 1) == window + 1;
    }
  }

  lemma {:induction false} SteadyIsMine(ip: string, window: int, n: nat)
    ensures Mine(Steady(ip, window, n), ip) == Steady(ip, window, n)
  {
    if n > 0 {
      SteadyIsMine(ip, window, n - 1);
      assert Steady(ip, window, n)[..n - 1] == Steady(ip, window, n - 1);
    }
  }

  lemma {:induction false} Multiples(step: int, i: nat, j: nat)
    requires step > 0 && i < j
    ensures j * step - i * step >= step
    ensures j >= i + 2 ==> j * step - i * step >= 2 * step
  {
    assert j * step == (j - 1) * step + step;
    if i + 1 < j {
      Multiples(step, i, j - 1);
    }
  }

  /** Only neighbouring requests of such a client lie in one window. */
  lemma SteadyTiming(ip: string, window: int, n: nat)
    requires window >= 0
    ensures MonotoneClock(Steady(ip, window, n))
    ensures forall i: nat, j: nat :: i + 2 <= j < n ==>
              Steady(ip, window, n)[j].seen - Steady(ip, window, n)[i].stamp > window
  {
    var events := Steady(ip, window, n);
    forall i: nat, j: nat | i < j < n
      ensures events[j].seen - events[i].stamp >= window
      ensures j >= i + 2 ==> events[j].seen - events[i].stamp > window
    {
      Multiples(window + 1, i, j);
    }
  }

  lemma {:induction false} SteadyOutside(ip: string, window: int, n: nat, m: nat)
    requires window >= 0 && m + 2 <= n
    ensures InWindow(Steady(ip, window, n)[..m], Steady(ip, window, n)[n - 1], window) == 0
  {
    if m > 0 {
      var events := Steady(ip, window, n);
      SteadyOutside(ip, window, n, m - 1);
      SteadyTiming(ip, window, n);
      assert events[..m][..m - 1] == events[..m - 1] && events[..m][m - 1] == events[m - 1];
      assert (m - 1) + 2 <= n - 1;
    }
  }

  /** Such a client never has more than two requests in a window. */
  lemma SteadyInWindow(ip: string, window: int, n: nat)
    requires window >= 0 && n >= 2
    ensures InWindow(Steady(ip, window, n), Steady(ip, window, n)[n - 1], window) <= 2
  {
    var events := Steady(ip, window, n);
    SteadyOutside(ip, window, n, n - 2);
    assert events[..n - 1][..n - 2] == events[..n - 2] && events[..n] == events;
  }

  /** Every request of such a client after its first `limit` ones is rejected: rejected requests keep the burst
      alive. */
  lemma SteadyClientIsRejected(ip: string, limit: int, window: int, n: nat)
    requires limit >= 1 && window >= 0
    ensures |Decisions(Steady(ip, window, n), ip, limit, window)| == n
    ensures forall k :: 0 <= k < n ==> (Decisions(Steady(ip, window, n), ip, limit, window)[k] <==> k < limit)
  {
    var events := Steady(ip, window, n);
    SteadyTiming(ip, window, n);
    SteadyIsMine(ip, window, n);
    DecisionsAreBursts(events, ip, limit, window);
    forall k | 0 <= k < n
      ensures AllowedEach(events, limit, window)[k] <==> k < limit
    {
      assert events[..k + 1] == Steady(ip, window, k + 1);
      SteadyBurst(ip, window, k + 1);
    }
  }

  /** The exact law: a limiter accepts every request that is among the visitor's first `limit` ones of a window if
      and only if the limit is at most 1 (or the window is negative, and everything is accepted). From limit 2 on,
      the third request of a steady client is only the second one of its window. */
  lemma PromiseKeptIff(limit: int, window: int)
    ensures KeepsPromise(limit, window) <==> limit <= 1 || window < 0
  {
    if limit <= 1 || window < 0 {
      forall events: seq<Event>, ip: string, k: nat | MonotoneClock(events) && k < |Mine(events, ip)|
        ensures PromiseAt(events, ip, k, limit, window)
      {
        FilteringKeepsClock(events, ip);
        DecisionsAreBursts(events, ip, limit, window);
        PrefixOfClock(Mine(events, ip), k + 1);
        if InWindow(Mine(events, ip)[..k + 1], Mine(events, ip)[k], window) <= limit {
          FirstInWindowIsAllowed(Mine(events, ip)[..k + 1], limit, window);
        }
      }
    } else {
      var ip, n := "", limit + 1;
      var events := Steady(ip, window, n);
      SteadyTiming(ip, window, n);
      SteadyIsMine(ip, window, n);
      SteadyInWindow(ip, window, n);
      SteadyClientIsRejected(ip, limit, window, n);
      assert events[..n] == events;
      assert !PromiseAt(events, ip, limit, limit, window);
    }
  }

  // ---------------------------------------------------------------------------
  // The limiter itself
  // ---------------------------------------------------------------------------

  class Visitor {
    var count: int
    var lastSeen: int

    constructor (count: int, lastSeen: int)
      ensures this.count == count && this.lastSeen == lastSeen
    {
      this.count, this.lastSeen := count, lastSeen;
    }
  }

  class RateLimiter {
    var visitors: map<string, Visitor>
    const limit: int
    const window: int

    /** No two addresses share a visitor. */
    ghost predicate Valid()
      reads this
    {
      forall a, b :: a in visitors && b in visitors && a != b ==> visitors[a] != visitors[b]
    }

    ghost function State(): Table
      reads this, visitors.Values
    {
      map ip | ip in visitors :: Entry(visitors[ip].count, visitors[ip].lastSeen)
    }

    constructor (limit: int, window: int)
      ensures Valid() && State() == After([], limit, window)
      ensures this.limit == limit && this.window == window
    {
      visitors := map[];
      this.limit, this.window := limit, window;
    }

    /** The locked part of Middleware; `accepted` tells whether the next handler runs. */
    method Serve(ip: string, seen: int, stamp: int) returns (accepted: bool)
      requires Valid()
      modifies this, visitors.Values
      ensures Valid() && fresh(visitors.Values - old(visitors.Values))
      ensures (State(), accepted) == Served(old(State()), ip, seen, stamp, limit, window)
    {
      if ip !in visitors || seen - visitors[ip].lastSeen > window {
        var v := new Visitor(1, stamp);
        visitors := visitors[ip := v];
        assert forall other :: other in old(visitors) && other != ip ==> visitors[other] == old(visitors[other]);
        assert State() == old(State())[ip := Entry(1, stamp)];
        return true;
      }
      var v := visitors[ip];
      v.count := v.count + 1;
      v.lastSeen := stamp;
      assert forall other :: other in visitors && other != ip ==> visitors[other] != v;
      assert State() == old(State())[ip := Entry(v.count, stamp)];
      if v.count > limit {
        return false;
      }
      return true;
    }

    /** One pass of the background loop, visiting the entries in an arbitrary order. */
    method Sweep(at: map<string, int>)
      requires Valid() && visitors.Keys <= at.Keys
      modifies this`visitors
      ensures Valid() && visitors.Values <= old(visitors.Values)
      ensures State() == Swept(old(State()), at, window)
    {
      var todo := visitors.Keys;
      while todo != {}
        invariant todo <= visitors.Keys <= old(visitors.Keys)
        invariant forall ip :: ip in visitors ==> visitors[ip] == old(visitors[ip])
        invariant forall ip :: ip in old(visitors) ==>
                    (ip in visitors <==> ip in todo || at[ip] - old(visitors[ip].lastSeen) <= window * 2)
      {
        var ip :| ip in todo;
        todo := todo - {ip};
        if at[ip] - visitors[ip].lastSeen > window * 2 {
          visitors := visitors - {ip};
        }
      }
    }
  }
}
