/** The shared key-set cache of internal/middleware/auth.go.

    The network fetch runs outside the lock, so a call is three atomic sections with other calls in between:
    look at the cache, fetch, store. `Look` and `Settled` are the two locked sections; class `JWKSCache`
    implements them; module `JwksRuns` interleaves any number of calls. Times are integers in one unit. */
module JwksCaching {
  import opened Options

  /** A JSON Web Key with its "kid" (section 4.5 of RFC 7517). */
  datatype Key = Key(kid: string, material: string)

  type KeySet = seq<Key>

  /** The keys with a given kid, in their order. */
  function WithKid(keys: KeySet, kid: string): (r: KeySet)
    ensures forall k :: k in r <==> k in keys && k.kid == kid
  {
    if keys == [] then []
    else (if keys[0].kid == kid then [keys[0]] else []) + WithKid(keys[1..], kid)
  }

  datatype Cache = Cache(keys: Option<KeySet>, fetchedAt: int)

  /** GetKeys asks for the set as a whole, RefreshForKID for a set with a given kid. */
  datatype Query = AnyKeys | ForKid(kid: string)

  datatype Glance = Hit(keys: KeySet) | Miss(stale: Option<KeySet>)

  datatype Response = Fetched(keys: KeySet) | Failed

  datatype Reply = Keys(keys: KeySet) | Error

  /** The section under the read lock. */
  function Look(cache: Cache, query: Query, now: int, ttl: int): Glance {
    match query
    case AnyKeys =>
      if cache.keys.Some? && now - cache.fetchedAt < ttl then Hit(cache.keys.value) else Miss(cache.keys)
    case ForKid(kid) =>
      if cache.keys.Some? && WithKid(cache.keys.value, kid) != [] then Hit(cache.keys.value) else Miss(cache.keys)
  }

  /** What a call does with the response of its fetch; a fetched set is stored under the write lock. */
  function Settled(cache: Cache, stale: Option<KeySet>, response: Response, now: int): (Cache, Reply) {
    match response
    case Failed => (cache, if stale.Some? then Keys(stale.value) else Error)
    case Fetched(keys) => (Cache(Some(keys), now), Keys(keys))
  }

  class JWKSCache {
    var keys: Option<KeySet>
    var fetchedAt: int
    const ttl: int

    ghost function State(): Cache
      reads this
    {
      Cache(keys, fetchedAt)
    }

    constructor (ttl: int)
      ensures State() == Cache(None, 0) && this.ttl == ttl
    {
      keys, fetchedAt, this.ttl := None, 0, ttl;
    }

    /** GetKeys up to its fetch. */
    method LookForKeys(now: int) returns (glance: Glance)
      ensures glance == Look(State(), AnyKeys, now, ttl)
      ensures glance == if keys.None? || now >= fetchedAt + ttl then Miss(keys) else Hit(keys.value)
    {
      if keys.Some? && now - fetchedAt < ttl {
        return Hit(keys.value);
      }
      return Miss(keys);
    }

    /** RefreshForKID up to its fetch. */
    method LookForKid(kid: string) returns (glance: Glance)
      ensures forall now :: glance == Look(State(), ForKid(kid), now, ttl)
      ensures glance == if keys.Some? && exists k :: k in keys.value && k.kid == kid then Hit(keys.value) else Miss(keys)
    {
      if keys.Some? {
        var matches := WithKid(keys.value, kid);
        assert |matches| > 0 ==> matches[0] in matches;
        if |matches| > 0 {
          return Hit(keys.value);
        }
      }
      return Miss(keys);
    }

    /** The rest of either call, once the fetch is over. */
    method Finish(stale: Option<KeySet>, response: Response, now: int) returns (reply: Reply)
      modifies this
      ensures (State(), reply) == Settled(old(State()), stale, response, now)
      ensures response.Fetched? ==> keys == Some(response.keys) && fetchedAt == now && reply == Keys(response.keys)
      ensures response.Failed? ==> keys == old(keys) && fetchedAt == old(fetchedAt)
      ensures response.Failed? ==> reply == if stale.Some? then Keys(stale.value) else Error
    {
      if response.Failed? {
        if stale.Some? {
          return Keys(stale.value);
        }
        return Error;
      }
      keys := Some(response.keys);
      fetchedAt := now;
      return Keys(response.keys);
    }
  }

  // ---------------------------------------------------------------------------
  // The key loop of validateJWT
  // ---------------------------------------------------------------------------

  function Candidates(keys: KeySet, kid: string): KeySet {
    if kid != "" then WithKid(keys, kid) else keys
  }

  /** Tries the candidates in order until one verifies the token; None stands for either error. */
  method VerifyWith(keys: KeySet, kid: string, verifies: Key -> bool) returns (signer: Option<Key>)
    ensures signer.Some? <==> exists k :: k in keys && (kid == "" || k.kid == kid) && verifies(k)
    ensures signer.Some? ==> signer.value in keys && (kid == "" || signer.value.kid == kid) && verifies(signer.value)
    ensures signer.Some? ==>
              exists i :: 0 <= i < |Candidates(keys, kid)| && Candidates(keys, kid)[i] == signer.value &&
                forall j :: 0 <= j < i ==> !verifies(Candidates(keys, kid)[j])
  {
    var matching := Candidates(keys, kid);
    assert forall k :: k in matching <==> k in keys && (kid == "" || k.kid == kid);
    var i := 0;
    while i < |matching|
      invariant 0 <= i <= |matching|
      invariant forall j :: 0 <= j < i ==> !verifies(matching[j])
    {
      if verifies(matching[i]) {
        return Some(matching[i]);
      }
      i := i + 1;
    }
    return None;
  }
}

/** Any number of calls on one cache, interleaved in any way, against an endpoint that changes its key set. */
module JwksRuns {
  import opened Options
  import opened JwksCaching

  /** From `at` on, and until the next publication, the endpoint serves `keys`. */
  datatype Publication = Publication(at: int, keys: KeySet)

  type Log = seq<Publication>

  /** A call that missed: what it asked, what it saw and when, and how many stores had happened by then. */
  datatype Ask = Ask(query: Query, at: int, stale: Option<KeySet>, stores: nat)

  datatype Call =
    | Missed(ask: Ask)
    | Fetching(ask: Ask, start: int)
    | Responded(ask: Ask, start: int, response: Response)

  datatype Source = FromCache(cachedAt: int) | FromFetch | Fallback

  datatype Answer = Answer(query: Query, askedAt: int, at: int, stores: nat, source: Source, reply: Reply)

  datatype Service = Service(
    now: int, log: Log, cache: Cache, stores: nat, calls: map<nat, Call>, answers: seq<Answer>)

  /** `ttl` is the cache's; `delay` bounds the time from the start of a fetch to the store of its result. */
  datatype Params = Params(ttl: int, delay: nat)

  /** The i-th publication was served at some moment of [lo, hi]. */
  ghost predicate ServedDuring(log: Log, i: nat, lo: int, hi: int)
    requires i < |log|
  {
    log[i].at <= hi && (i + 1 < |log| ==> lo <= log[i + 1].at)
  }

  ghost predicate PublishedDuring(log: Log, keys: KeySet, lo: int, hi: int) {
    exists i :: 0 <= i < |log| && log[i].keys == keys && ServedDuring(log, i, lo, hi)
  }

  ghost predicate KidThroughout(log: Log, kid: string, lo: int, hi: int) {
    forall i :: 0 <= i < |log| && ServedDuring(log, i, lo, hi) ==> WithKid(log[i].keys, kid) != []
  }

  ghost predicate Init(s: Service) {
    s.log == [] && s.cache.keys.None? && s.stores == 0 && s.calls == map[] && s.answers == []
  }

  datatype Step =
    | Tick(later: int)
    | Publish(keys: KeySet)
    | Begin(id: nat, query: Query)
    | Start(id: nat)
    | Respond(id: nat, response: Response)
    | Finish(id: nat)

  ghost predicate Enabled(s: Service, step: Step, p: Params) {
    match step
    case Tick(later) => s.now <= later
    case Publish(_) => true
    case Begin(id, _) => id !in s.calls
    case Start(id) => id in s.calls && s.calls[id].Missed?
    case Respond(id, response) =>
      && id in s.calls && s.calls[id].Fetching?
      && (response.Fetched? ==> PublishedDuring(s.log, response.keys, s.calls[id].start, s.now))
    case Finish(id) =>
      && id in s.calls && s.calls[id].Responded?
      && (s.calls[id].response.Fetched? ==> s.now - s.calls[id].start <= p.delay)
  }

  ghost function Apply(s: Service, step: Step, p: Params): Service
    requires Enabled(s, step, p)
  {
    match step
    case Tick(later) => s.(now := later)
    case Publish(keys) => s.(log := s.log + [Publication(s.now, keys)])
    case Begin(id, query) =>
      (match Look(s.cache, query, s.now, p.ttl)
       case Hit(keys) =>
         s.(answers := s.answers +
                       [Answer(query, s.now, s.now, s.stores, FromCache(s.cache.fetchedAt), Keys(keys))])
       case Miss(stale) =>
         s.(calls := s.calls[id := Missed(Ask(query, s.now, stale, s.stores))]))
    case Start(id) =>
      s.(calls := s.calls[id := Fetching(s.calls[id].ask, s.now)])
    case Respond(id, response) =>
      s.(calls := s.calls[id := Responded(s.calls[id].ask, s.calls[id].start, response)])
    case Finish(id) =>
      var call := s.calls[id];
      var (cache, reply) := Settled(s.cache, call.ask.stale, call.response, s.now);
      var source := if call.response.Fetched? then FromFetch else Fallback;
      s.(cache := cache,
         stores := s.stores + (if call.response.Fetched? then 1 else 0),
         calls := s.calls - {id},
         answers := s.answers + [Answer(call.ask.query, call.ask.at, s.now, call.ask.stores, source, reply)])
  }

  ghost predicate Run(states: seq<Service>, steps: seq<Step>, p: Params) {
    && |states| == |steps| + 1 && Init(states[0])
    && forall i :: 0 <= i < |steps| ==>
         Enabled(states[i], steps[i], p) && states[i + 1] == Apply(states[i], steps[i], p)
  }

  // ---------------------------------------------------------------------------
  // What every run keeps
  // ---------------------------------------------------------------------------

  ghost predicate Known(log: Log, keys: KeySet, upTo: int) {
    exists i :: 0 <= i < |log| && log[i].keys == keys && log[i].at <= upTo
  }

  ghost predicate GoodAnswer(r: Answer, log: Log, p: Params) {
    && r.askedAt <= r.at
    // provenance: whatever is returned was published before
    && (r.reply.Keys? ==> Known(log, r.reply.keys, r.at))
    // availability: an error means a failed fetch by a call that looked before the first store
    && (r.reply.Error? <==> r.source.Fallback? && r.stores == 0)
    // bounded staleness of cached sets; GetKeys serves none that was stored `ttl` ago
    && (r.source.FromCache? ==>
          && r.source.cachedAt <= r.at
          && PublishedDuring(log, r.reply.keys, r.source.cachedAt - p.delay, r.at))
    && (r.source.FromCache? && r.query.AnyKeys? ==> r.at - r.source.cachedAt < p.ttl)
    && (r.source.FromFetch? ==> PublishedDuring(log, r.reply.keys, r.askedAt, r.at))
    // rotation: a kid that is published throughout a successful call is found
    && (r.query.ForKid? && !r.source.Fallback? && KidThroughout(log, r.query.kid, r.askedAt, r.at) ==>
          WithKid(r.reply.keys, r.query.kid) != [])
  }

  ghost predicate GoodCall(c: Call, s: Service) {
    && c.ask.at <= s.now && c.ask.stores <= s.stores
    && (c.ask.stores > 0 <==> c.ask.stale.Some?)
    && (c.ask.stale.Some? ==> Known(s.log, c.ask.stale.value, c.ask.at))
    && (!c.Missed? ==> c.ask.at <= c.start <= s.now)
    && (c.Responded? && c.response.Fetched? ==> PublishedDuring(s.log, c.response.keys, c.start, s.now))
  }

  ghost predicate Inv(s: Service, p: Params) {
    && (forall i :: 0 <= i < |s.log| ==> s.log[i].at <= s.now)
    && (s.stores > 0 <==> s.cache.keys.Some?)
    && (s.cache.keys.Some? ==>
          s.cache.fetchedAt <= s.now &&
          PublishedDuring(s.log, s.cache.keys.value, s.cache.fetchedAt - p.delay, s.cache.fetchedAt))
    && (forall id :: id in s.calls ==> GoodCall(s.calls[id], s))
    && (forall i :: 0 <= i < |s.answers| ==> s.answers[i].at <= s.now && GoodAnswer(s.answers[i], s.log, p))
  }

  lemma PublishedLonger(log: Log, keys: KeySet, lo: int, hi: int, lo': int, hi': int)
    requires PublishedDuring(log, keys, lo, hi) && lo' <= lo && hi <= hi'
    ensures PublishedDuring(log, keys, lo', hi') && Known(log, keys, hi')
  {
    var i :| 0 <= i < |log| && log[i].keys == keys && ServedDuring(log, i, lo, hi);
    assert ServedDuring(log, i, lo', hi');
  }

  /** A publication at or after `lo` takes nothing away from what was served during [lo, hi]. */
  lemma PublishKeepsServed(log: Log, next: Publication, i: nat, lo: int, hi: int)
    requires i < |log| && lo <= next.at && ServedDuring(log, i, lo, hi)
    ensures ServedDuring(log + [next], i, lo, hi)
  {
  }

  lemma PublishKeepsPublished(log: Log, next: Publication, keys: KeySet, lo: int, hi: int)
    requires lo <= next.at && PublishedDuring(log, keys, lo, hi)
    ensures PublishedDuring(log + [next], keys, lo, hi)
  {
    var i :| 0 <= i < |log| && log[i].keys == keys && ServedDuring(log, i, lo, hi);
    PublishKeepsServed(log, next, i, lo, hi);
    assert (log + [next])[i].keys == keys;
  }

  lemma PublishKeepsKnown(log: Log, next: Publication, keys: KeySet, upTo: int)
    requires Known(log, keys, upTo)
    ensures Known(log + [next], keys, upTo)
  {
    var i :| 0 <= i < |log| && log[i].keys == keys && log[i].at <= upTo;
    assert (log + [next])[i] == log[i];
  }

  lemma PublishKeepsAnswer(r: Answer, log: Log, next: Publication, p: Params)
    requires GoodAnswer(r, log, p) && r.at <= next.at
    ensures GoodAnswer(r, log + [next], p)
  {
    if r.reply.Keys? {
      PublishKeepsKnown(log, next, r.reply.keys, r.at);
    }
    if r.source.FromCache? {
      PublishKeepsPublished(log, next, r.reply.keys, r.source.cachedAt - p.delay, r.at);
    }
    if r.source.FromFetch? {
      PublishKeepsPublished(log, next, r.reply.keys, r.askedAt, r.at);
    }
    if r.query.ForKid? && KidThroughout(log + [next], r.query.kid, r.askedAt, r.at) {
      forall i | 0 <= i < |log| && ServedDuring(log, i, r.askedAt, r.at)
        ensures WithKid(log[i].keys, r.query.kid) != []
      {
        PublishKeepsServed(log, next, i, r.askedAt, r.at);
        assert (log + [next])[i] == log[i];
      }
    }
  }

  lemma PublishKeepsCall(c: Call, s: Service, keys: KeySet, p: Params)
    requires GoodCall(c, s)
    ensures GoodCall(c, Apply(s, Publish(keys), p))
  {
    var next := Publication(s.now, keys);
    if c.ask.stale.Some? {
      PublishKeepsKnown(s.log, next, c.ask.stale.value, c.ask.at);
    }
    if c.Responded? && c.response.Fetched? {
      PublishKeepsPublished(s.log, next, c.response.keys, c.start, s.now);
    }
  }

  lemma PublishKeepsInv(s: Service, keys: KeySet, p: Params)
    requires Inv(s, p)
    ensures Inv(Apply(s, Publish(keys), p), p)
  {
    var next := Publication(s.now, keys);
    var s' := Apply(s, Publish(keys), p);
    if s.cache.keys.Some? {
      PublishKeepsPublished(s.log, next, s.cache.keys.value, s.cache.fetchedAt - p.delay, s.cache.fetchedAt);
    }
    forall id | id in s.calls ensures GoodCall(s.calls[id], s') {
      PublishKeepsCall(s.calls[id], s, keys, p);
    }
    forall i | 0 <= i < |s.answers| ensures GoodAnswer(s.answers[i], s'.log, p) {
      PublishKeepsAnswer(s.answers[i], s.log, next, p);
    }
  }

  lemma TickKeepsInv(s: Service, later: int, p: Params)
    requires Inv(s, p) && s.now <= later
    ensures Inv(Apply(s, Tick(later), p), p)
  {
    var s' := Apply(s, Tick(later), p);
    forall id | id in s.calls ensures GoodCall(s.calls[id], s') {
      var c := s.calls[id];
      if c.Responded? && c.response.Fetched? {
        PublishedLonger(s.log, c.response.keys, c.start, s.now, c.start, later);
      }
    }
  }

  lemma BeginKeepsInv(s: Service, id: nat, query: Query, p: Params)
    requires Inv(s, p) && id !in s.calls
    ensures Inv(Apply(s, Begin(id, query), p), p)
  {
    var s' := Apply(s, Begin(id, query), p);
    if s.cache.keys.Some? {
      var at := s.cache.fetchedAt;
      PublishedLonger(s.log, s.cache.keys.value, at - p.delay, at, at - p.delay, s.now);
    }
    match Look(s.cache, query, s.now, p.ttl)
    case Hit(keys) =>
      assert GoodAnswer(s'.answers[|s.answers|], s'.log, p);
    case Miss(stale) =>
      assert GoodCall(s'.calls[id], s');
      forall other | other in s.calls ensures GoodCall(s.calls[other], s') {
      }
  }

  /** The answer to a successful fetch: the set was served between the call's look at the cache and now. */
  lemma FetchedAnswer(s: Service, c: Call, p: Params)
    requires GoodCall(c, s) && c.Responded? && c.response.Fetched?
    ensures GoodAnswer(Answer(c.ask.query, c.ask.at, s.now, c.ask.stores, FromFetch, Keys(c.response.keys)), s.log, p)
  {
    PublishedLonger(s.log, c.response.keys, c.start, s.now, c.ask.at, s.now);
  }

  lemma FallbackAnswer(s: Service, c: Call, p: Params)
    requires GoodCall(c, s) && c.Responded? && c.response.Failed?
    ensures var reply := Settled(s.cache, c.ask.stale, c.response, s.now).1;
            GoodAnswer(Answer(c.ask.query, c.ask.at, s.now, c.ask.stores, Fallback, reply), s.log, p)
  {
    if c.ask.stale.Some? {
      var i :| 0 <= i < |s.log| && s.log[i].keys == c.ask.stale.value && s.log[i].at <= c.ask.at;
      assert Known(s.log, c.ask.stale.value, s.now);
    }
  }

  lemma FinishKeepsInv(s: Service, id: nat, p: Params)
    requires Inv(s, p) && Enabled(s, Finish(id), p)
    ensures Inv(Apply(s, Finish(id), p), p)
  {
    var s' := Apply(s, Finish(id), p);
    var c := s.calls[id];
    assert GoodCall(c, s);
    if c.response.Fetched? {
      FetchedAnswer(s, c, p);
      PublishedLonger(s.log, c.response.keys, c.start, s.now, s.now - p.delay, s.now);
    } else {
      FallbackAnswer(s, c, p);
    }
    forall other | other in s'.calls ensures GoodCall(s'.calls[other], s') {
      assert GoodCall(s.calls[other], s);
    }
    forall i | 0 <= i < |s'.answers| ensures GoodAnswer(s'.answers[i], s'.log, p) {
    }
  }

  lemma StepKeepsInv(s: Service, step: Step, p: Params)
    requires Inv(s, p) && Enabled(s, step, p)
    ensures Inv(Apply(s, step, p), p)
  {
    match step
    case Tick(later) => TickKeepsInv(s, later, p);
    case Publish(keys) => PublishKeepsInv(s, keys, p);
    case Begin(id, query) => BeginKeepsInv(s, id, query, p);
    case Finish(id) => FinishKeepsInv(s, id, p);
    case Start(id) =>
      assert GoodCall(s.calls[id], s);
      forall other | other in s.calls ensures GoodCall(s.calls[other], Apply(s, step, p)) {}
    case Respond(id, _) =>
      assert GoodCall(s.calls[id], s);
      forall other | other in s.calls ensures GoodCall(s.calls[other], Apply(s, step, p)) {}
  }

  lemma {:induction false} RunKeepsInv(states: seq<Service>, steps: seq<Step>, p: Params, n: nat)
    requires Run(states, steps, p) && n <= |steps|
    ensures Inv(states[n], p)
  {
    if n > 0 {
      RunKeepsInv(states, steps, p, n - 1);
      StepKeepsInv(states[n - 1], steps[n - 1], p);
    }
  }

  // ---------------------------------------------------------------------------
  // Main results
  // ---------------------------------------------------------------------------

  /** A set that GetKeys serves from the cache was served by the endpoint within the last ttl + delay, even
      when an older fetch was stored after a newer one. */
  lemma BoundedStaleness(states: seq<Service>, steps: seq<Step>, p: Params, n: nat, k: nat)
    requires Run(states, steps, p) && n <= |steps| && k < |states[n].answers|
    requires states[n].answers[k].query.AnyKeys? && states[n].answers[k].source.FromCache?
    ensures var r := states[n].answers[k];
            r.reply.Keys? && PublishedDuring(states[n].log, r.reply.keys, r.at - (p.ttl + p.delay), r.at)
  {
    RunKeepsInv(states, steps, p, n);
    var r := states[n].answers[k];
    assert GoodAnswer(r, states[n].log, p);
    PublishedLonger(states[n].log, r.reply.keys, r.source.cachedAt - p.delay, r.at, r.at - (p.ttl + p.delay), r.at);
  }

  /** The cache is never emptied; a call errors exactly when its fetch failed and nothing had been stored
      when it looked; whatever is returned was published before. */
  lemma AvailabilityAndProvenance(states: seq<Service>, steps: seq<Step>, p: Params, n: nat)
    requires Run(states, steps, p) && n <= |steps|
    ensures n > 0 && states[n - 1].cache.keys.Some? ==> states[n].cache.keys.Some?
    ensures states[n].stores > 0 <==> states[n].cache.keys.Some?
    ensures forall k :: 0 <= k < |states[n].answers| ==>
              var r := states[n].answers[k];
              && (r.reply.Error? <==> r.source.Fallback? && r.stores == 0)
              && (r.reply.Keys? ==> Known(states[n].log, r.reply.keys, r.at))
  {
    RunKeepsInv(states, steps, p, n);
    if n > 0 {
      assert Enabled(states[n - 1], steps[n - 1], p) && states[n] == Apply(states[n - 1], steps[n - 1], p);
    }
    forall k | 0 <= k < |states[n].answers|
      ensures var r := states[n].answers[k];
              && (r.reply.Error? <==> r.source.Fallback? && r.stores == 0)
              && (r.reply.Keys? ==> Known(states[n].log, r.reply.keys, r.at))
    {
      assert GoodAnswer(states[n].answers[k], states[n].log, p);
    }
  }

  /** RefreshForKID finds every kid that the endpoint publishes throughout the call, unless its fetch fails. */
  lemma RotationIsFollowed(states: seq<Service>, steps: seq<Step>, p: Params, n: nat, k: nat)
    requires Run(states, steps, p) && n <= |steps| && k < |states[n].answers|
    requires states[n].answers[k].query.ForKid? && !states[n].answers[k].source.Fallback?
    requires var r := states[n].answers[k]; KidThroughout(states[n].log, r.query.kid, r.askedAt, r.at)
    ensures var r := states[n].answers[k]; r.reply.Keys? && WithKid(r.reply.keys, r.query.kid) != []
  {
    RunKeepsInv(states, steps, p, n);
    assert GoodAnswer(states[n].answers[k], states[n].log, p);
  }

  /** A token that passes the key loop over a returned set was verified by a key of a published set, with the
      token's kid if it has one. */
  lemma IdentitiesAreSigned(
    states: seq<Service>, steps: seq<Step>, p: Params, n: nat, k: nat, kid: string, verifies: Key -> bool)
    requires Run(states, steps, p) && n <= |steps| && k < |states[n].answers|
    requires states[n].answers[k].reply.Keys?
    requires exists key :: key in Candidates(states[n].answers[k].reply.keys, kid) && verifies(key)
    ensures exists i, key :: 0 <= i < |states[n].log| && states[n].log[i].at <= states[n].answers[k].at &&
              key in states[n].log[i].keys && (kid != "" ==> key.kid == kid) && verifies(key)
  {
    RunKeepsInv(states, steps, p, n);
    var r := states[n].answers[k];
    assert GoodAnswer(r, states[n].log, p);
    var i :| 0 <= i < |states[n].log| && states[n].log[i].keys == r.reply.keys && states[n].log[i].at <= r.at;
    var key :| key in Candidates(r.reply.keys, kid) && verifies(key);
    assert key in states[n].log[i].keys;
  }

  // ---------------------------------------------------------------------------
  // Which calls go to the network, and what each call answers
  // ---------------------------------------------------------------------------

  /** GetKeys goes to the network if and only if nothing is cached or what is cached was stored at least `ttl` ago;
      RefreshForKID if and only if no cached key has the kid. A call that does not is answered at once with the
      cached set; one that does remembers the cached set, if any. Neither changes the cache. */
  lemma CallsGoOutIff(states: seq<Service>, steps: seq<Step>, p: Params, n: nat, id: nat, query: Query)
    requires Run(states, steps, p) && n < |steps| && steps[n] == Begin(id, query)
    ensures var s, s' := states[n], states[n + 1];
            && (query == AnyKeys ==>
                  (id in s'.calls <==> s.cache.keys.None? || s.now >= s.cache.fetchedAt + p.ttl))
            && (query.ForKid? ==>
                  (id in s'.calls <==>
                   s.cache.keys.None? || forall k :: k in s.cache.keys.value ==> k.kid != query.kid))
            && (id in s'.calls ==>
                  s'.calls == s.calls[id := Missed(Ask(query, s.now, s.cache.keys, s.stores))] && s'.answers == s.answers)
            && (id !in s'.calls ==>
                  && s.cache.keys.Some? && s'.calls == s.calls
                  && s'.answers == s.answers + [Answer(query, s.now, s.now, s.stores, FromCache(s.cache.fetchedAt),
                                                       Keys(s.cache.keys.value))])
            && s'.cache == s.cache && s'.stores == s.stores
  {
    var s := states[n];
    assert Enabled(s, steps[n], p) && states[n + 1] == Apply(s, steps[n], p);
    if query.ForKid? && s.cache.keys.Some? {
      var matching := WithKid(s.cache.keys.value, query.kid);
      assert matching != [] ==> matching[0] in matching;
    }
  }

  /** A call whose fetch succeeds stores the fetched set, stamped now, and answers with it; one whose fetch fails
      leaves the cache and answers with the set it remembers, or with an error if it remembers none. */
  lemma FetchesAnswer(states: seq<Service>, steps: seq<Step>, p: Params, n: nat, id: nat)
    requires Run(states, steps, p) && n < |steps| && steps[n] == Finish(id)
    ensures id in states[n].calls && states[n].calls[id].Responded?
    ensures var s, s', c := states[n], states[n + 1], states[n].calls[id];
            && s'.calls == s.calls - {id} && |s'.answers| == |s.answers| + 1 && s'.answers[..|s.answers|] == s.answers
            && s'.answers[|s.answers|].query == c.ask.query && s'.answers[|s.answers|].at == s.now
            && (c.response.Fetched? ==>
                  && s'.cache.keys == Some(c.response.keys) && s'.cache.fetchedAt == s.now
                  && s'.answers[|s.answers|].reply == Keys(c.response.keys))
            && (c.response.Failed? ==>
                  && s'.cache == s.cache
                  && s'.answers[|s.answers|].reply == match c.ask.stale case Some(keys) => Keys(keys) case None => Error)
  {
    assert Enabled(states[n], steps[n], p) && states[n + 1] == Apply(states[n], steps[n], p);
  }

  // ---------------------------------------------------------------------------
  // RefreshForKID never looks at the age of the cache
  // ---------------------------------------------------------------------------

  /** In this run the k-th answer after n steps is that of RefreshForKID from a cache that was filled `age` ago. */
  ghost predicate HitAtAge(states: seq<Service>, steps: seq<Step>, p: Params, n: nat, k: nat, age: int) {
    && Run(states, steps, p) && n <= |steps| && k < |states[n].answers|
    && states[n].answers[k].query.ForKid? && states[n].answers[k].source.FromCache?
    && states[n].answers[k].at - states[n].answers[k].source.cachedAt == age
  }

  /** The bound that `BoundedStaleness` gives for GetKeys. */
  ghost predicate Bounded(log: Log, r: Answer, p: Params) {
    r.reply.Keys? && PublishedDuring(log, r.reply.keys, r.at - (p.ttl + p.delay), r.at)
  }

  lemma YoungHitIsBounded(states: seq<Service>, steps: seq<Step>, p: Params, n: nat, k: nat, age: int)
    requires HitAtAge(states, steps, p, n, k, age) && age <= p.ttl
    ensures Bounded(states[n].log, states[n].answers[k], p)
  {
    RunKeepsInv(states, steps, p, n);
    var r := states[n].answers[k];
    assert GoodAnswer(r, states[n].log, p);
    PublishedLonger(states[n].log, r.reply.keys, r.source.cachedAt - p.delay, r.at, r.at - (p.ttl + p.delay), r.at);
  }

  const RETIRED: Key := Key("retired", "")

  /** The endpoint replaces the retired key by the empty set at once; the fetched key is stored as late as allowed,
      and a token signed under it arrives `age` after that. */
  function RetiredSteps(age: nat, delay: nat): seq<Step> {
    [Publish([RETIRED]), Begin(0, AnyKeys), Start(0), Respond(0, Fetched([RETIRED])), Publish([]),
     Tick(delay), Finish(0), Tick(delay + age), Begin(1, ForKid(RETIRED.kid))]
  }

  /** The part of that run in which the key is fetched. */
  lemma RetiredFetch(p: Params) returns (states: seq<Service>)
    ensures |states| == 5 && Init(states[0])
    ensures var steps := RetiredSteps(0, p.delay);
            forall i :: 0 <= i < 4 ==> Enabled(states[i], steps[i], p) && states[i + 1] == Apply(states[i], steps[i], p)
    ensures var ask := Ask(AnyKeys, 0, None, 0);
            states[4] == Service(0, [Publication(0, [RETIRED])], Cache(None, 0), 0,
                                 map[0 := Responded(ask, 0, Fetched([RETIRED]))], [])
  {
    var steps := RetiredSteps(0, p.delay);
    var s0 := Service(0, [], Cache(None, 0), 0, map[], []);
    var s1 := Apply(s0, steps[0], p);
    var s2 := Apply(s1, steps[1], p);
    var s3 := Apply(s2, steps[2], p);
    assert ServedDuring(s3.log, 0, 0, 0);
    var s4 := Apply(s3, steps[3], p);
    states := [s0, s1, s2, s3, s4];
  }

  lemma RetiredHit(s: Service, age: nat, p: Params) returns (states: seq<Service>)
    requires s == Service(0, [Publication(0, [RETIRED])], Cache(None, 0), 0,
                          map[0 := Responded(Ask(AnyKeys, 0, None, 0), 0, Fetched([RETIRED]))], [])
    ensures |states| == 6 && states[0] == s
    ensures var steps := RetiredSteps(age, p.delay);
            forall i :: 0 <= i < 5 ==>
              Enabled(states[i], steps[i + 4], p) && states[i + 1] == Apply(states[i], steps[i + 4], p)
    ensures var r := Answer(ForKid(RETIRED.kid), p.delay + age, p.delay + age, 1, FromCache(p.delay), Keys([RETIRED]));
            |states[5].answers| == 2 && states[5].answers[1] == r
    ensures states[5].log == [Publication(0, [RETIRED]), Publication(0, [])]
  {
    var steps := RetiredSteps(age, p.delay);
    var s5 := Apply(s, steps[4], p);
    var s6 := Apply(s5, steps[5], p);
    var s7 := Apply(s6, steps[6], p);
    var s8 := Apply(s7, steps[7], p);
    assert WithKid([RETIRED], RETIRED.kid) == [RETIRED];
    var s9 := Apply(s8, steps[8], p);
    states := [s, s5, s6, s7, s8, s9];
  }

  /** However old the cache is, RefreshForKID can return from it a set that was last served when the fetch
      that filled it began. */
  lemma RefreshIgnoresAge(age: nat, p: Params) returns (states: seq<Service>, steps: seq<Step>)
    ensures HitAtAge(states, steps, p, 9, 1, age)
    ensures var r := states[9].answers[1];
            && r.reply == Keys([RETIRED]) && r.at == p.delay + age
            && forall lo :: lo > 0 ==> !PublishedDuring(states[9].log, [RETIRED], lo, r.at)
  {
    hide Apply, Enabled, Init;
    var first := RetiredFetch(p);
    var then' := RetiredHit(first[4], age, p);
    steps := RetiredSteps(age, p.delay);
    states := first + then'[1..];
    forall i | 0 <= i < 9
      ensures Enabled(states[i], steps[i], p) && states[i + 1] == Apply(states[i], steps[i], p)
    {
      if i < 4 {
        assert steps[i] == RetiredSteps(0, p.delay)[i];
      } else {
        assert states[i] == then'[i - 4] && states[i + 1] == then'[i - 3];
        assert steps[i] == steps[i - 4 + 4];
      }
    }
    assert states[9] == then'[5];
  }

  /** The exact law: the bound of GetKeys holds for every cache hit of RefreshForKID at a given age, in every run,
      if and only if the cache is no older than the ttl. The code never compares the two. */
  lemma RefreshBoundedIff(age: nat, p: Params)
    ensures (forall states: seq<Service>, steps: seq<Step>, n: nat, k: nat | HitAtAge(states, steps, p, n, k, age) ::
               Bounded(states[n].log, states[n].answers[k], p)) <==> age <= p.ttl
  {
    if age <= p.ttl {
      forall states: seq<Service>, steps: seq<Step>, n: nat, k: nat | HitAtAge(states, steps, p, n, k, age)
        ensures Bounded(states[n].log, states[n].answers[k], p)
      {
        YoungHitIsBounded(states, steps, p, n, k, age);
      }
    } else {
      var states, steps := RefreshIgnoresAge(age, p);
      assert !Bounded(states[9].log, states[9].answers[1], p);
    }
  }
}
