/** `uploadMany` of sdk/js/src/client.ts: a fixed set of workers claims the files in order from a shared
    counter. JavaScript runs each stretch of a worker between two awaits without interruption, so a run is a
    sequence of events: some upload settles and its worker runs on, or the signal is aborted. */
module UploadMany {
  import opened Options

  /** How one upload ends; `thrown` is what `onFileComplete` throws, if it does. */
  datatype Outcome<+R, +E> = Resolved(result: R, thrown: Option<E>) | Rejected(error: E) {
    function ToResult(): Option<R> {
      if Resolved? then Some(result) else None
    }

    function ToError(): Option<E> {
      if Resolved? then thrown else Some(error)
    }
  }

  /** `inFlight` maps each suspended worker to the index it is uploading. */
  datatype State<R, E> = State(
    next: nat, aborted: bool, results: seq<Option<R>>, errors: seq<Option<E>>, inFlight: map<nat, nat>)

  datatype Event<R, E> = Settle(worker: nat, outcome: Outcome<R, E>) | Abort

  function Workers(concurrency: int, n: nat): nat {
    if concurrency < 0 then 0 else if concurrency < n then concurrency else n
  }

  /** A worker runs from the head of its loop to its next await, or to its end. */
  function Continued<R, E>(s: State<R, E>, worker: nat): State<R, E> {
    if s.next < |s.results| && !s.aborted
    then s.(next := s.next + 1, inFlight := s.inFlight[worker := s.next])
    else s
  }

  /** `workers` workers are started one after the other. */
  function Launched<R, E>(s: State<R, E>, workers: nat): State<R, E> {
    if workers == 0 then s else Continued(Launched(s, workers - 1), workers - 1)
  }

  function Blank<R, E>(n: nat, aborted: bool): State<R, E> {
    State(0, aborted, seq(n, _ => None), seq(n, _ => None), map[])
  }

  function Started<R, E>(n: nat, concurrency: int, aborted: bool): State<R, E> {
    Launched(Blank(n, aborted), Workers(concurrency, n))
  }

  predicate Possible<R, E>(s: State<R, E>, e: Event<R, E>) {
    e.Settle? ==>
      e.worker in s.inFlight && s.inFlight[e.worker] < |s.results| && s.inFlight[e.worker] < |s.errors|
  }

  function Put<T>(slots: seq<Option<T>>, index: nat, value: Option<T>): seq<Option<T>>
    requires index < |slots|
  {
    if value.Some? then slots[index := value] else slots
  }

  function After<R, E>(s: State<R, E>, e: Event<R, E>): State<R, E>
    requires Possible(s, e)
  {
    match e
    case Abort => s.(aborted := true)
    case Settle(worker, outcome) =>
      var index := s.inFlight[worker];
      Continued(s.(results := Put(s.results, index, outcome.ToResult()),
                   errors := Put(s.errors, index, outcome.ToError()),
                   inFlight := s.inFlight - {worker}), worker)
  }

  ghost predicate Run<R(!new), E(!new)>(n: nat, concurrency: int, aborted: bool,
                                        states: seq<State<R, E>>, events: seq<Event<R, E>>)
  {
    && |states| == |events| + 1 && states[0] == Started(n, concurrency, aborted)
    && forall i :: 0 <= i < |events| ==> Possible(states[i], events[i]) && states[i + 1] == After(states[i], events[i])
  }

  /** All workers have returned, so `Promise.all` is fulfilled. */
  predicate Done<R, E>(s: State<R, E>) {
    s.inFlight == map[]
  }

  // ---------------------------------------------------------------------------
  // The scheduler invariant
  // ---------------------------------------------------------------------------

  function Upto(k: nat): (r: set<nat>)
    ensures forall w: nat :: w in r <==> w < k
    ensures |r| == k
  {
    if k == 0 then {} else Upto(k - 1) + {k - 1}
  }

  /** Each of the first k workers with the file of its own number. */
  function FirstClaims(k: nat): (r: map<nat, nat>)
    ensures r.Keys == Upto(k) && forall w :: w in r ==> r[w] == w
  {
    if k == 0 then map[] else FirstClaims(k - 1)[k - 1 := k - 1]
  }

  ghost predicate Settled<R, E>(s: State<R, E>, index: nat) {
    index < s.next && index !in s.inFlight.Values
  }

  /** Claimed indices are a prefix; each is in flight in exactly one worker, or settled; nothing is recorded
      for an index that has not settled; no worker is idle while files remain unclaimed. */
  ghost predicate Inv<R, E>(s: State<R, E>, n: nat, concurrency: int) {
    && |s.results| == n && |s.errors| == n && s.next <= n
    && (forall w :: w in s.inFlight ==> w < Workers(concurrency, n) && s.inFlight[w] < s.next)
    && (forall v, w :: v in s.inFlight && w in s.inFlight && v != w ==> s.inFlight[v] != s.inFlight[w])
    && (forall i :: 0 <= i < n ==> (s.results[i].Some? || s.errors[i].Some? <==> Settled(s, i)))
    && (s.next < n && !s.aborted ==> s.inFlight.Keys == Upto(Workers(concurrency, n)))
  }

  lemma {:induction false} LaunchedWorkers<R, E>(s: State<R, E>, k: nat)
    requires s.next == 0 && s.inFlight == map[] && k <= |s.results|
    ensures Launched(s, k) == if s.aborted then s else s.(next := k, inFlight := FirstClaims(k))
  {
    if k > 0 {
      LaunchedWorkers(s, k - 1);
      hide FirstClaims;
      if !s.aborted {
        OneMoreClaim(s, k);
      }
    }
  }

  lemma OneMoreClaim<R, E>(s: State<R, E>, k: nat)
    requires 0 < k <= |s.results| && !s.aborted
    ensures Continued(s.(next := k - 1, inFlight := FirstClaims(k - 1)), k - 1) ==
            s.(next := k, inFlight := FirstClaims(k))
  {
  }

  lemma StartedInv<R, E>(n: nat, concurrency: int, aborted: bool)
    ensures Inv(Started<R, E>(n, concurrency, aborted), n, concurrency)
    ensures forall i :: 0 <= i < n ==> !Settled(Started<R, E>(n, concurrency, aborted), i)
  {
    LaunchedWorkers<R, E>(Blank(n, aborted), Workers(concurrency, n));
    hide Launched, Inv, Settled, FirstClaims;
    if aborted {
      NothingClaimed(Blank<R, E>(n, true), n, concurrency);
    } else {
      OwnNumbersClaimed(Blank<R, E>(n, false), n, concurrency, Workers(concurrency, n));
    }
  }

  lemma NothingClaimed<R, E>(s: State<R, E>, n: nat, concurrency: int)
    requires s == Blank(n, true)
    ensures Inv(s, n, concurrency) && forall i :: 0 <= i < n ==> !Settled(s, i)
  {
  }

  /** The state after the launch: the first k files are in flight. */
  lemma OwnNumbersClaimed<R, E>(blank: State<R, E>, n: nat, concurrency: int, k: nat)
    requires blank == Blank(n, false) && k == Workers(concurrency, n)
    ensures var s := blank.(next := k, inFlight := FirstClaims(k));
            Inv(s, n, concurrency) && forall i :: 0 <= i < n ==> !Settled(s, i)
  {
    var s := blank.(next := k, inFlight := FirstClaims(k));
    hide FirstClaims;
    forall i | 0 <= i < n ensures !Settled(s, i) {
      assert i < k ==> i in s.inFlight && s.inFlight[i] == i;
    }
  }

  lemma StepInv<R, E>(s: State<R, E>, e: Event<R, E>, n: nat, concurrency: int)
    requires Inv(s, n, concurrency) && Possible(s, e)
    ensures Inv(After(s, e), n, concurrency)
  {
    if e.Settle? {
      StepClaims(s, e, n, concurrency);
      forall i | 0 <= i < n
        ensures After(s, e).results[i].Some? || After(s, e).errors[i].Some? <==> Settled(After(s, e), i)
      {
        SettledAfter(s, e, n, concurrency, i);
      }
    } else {
      forall i | 0 <= i < n ensures Settled(After(s, e), i) == Settled(s, i) {}
    }
  }

  lemma StepClaims<R, E>(s: State<R, E>, e: Event<R, E>, n: nat, concurrency: int)
    requires Inv(s, n, concurrency) && Possible(s, e) && e.Settle?
    ensures var s' := After(s, e);
            && |s'.results| == n && |s'.errors| == n && s'.next <= n
            && (forall w :: w in s'.inFlight ==> w < Workers(concurrency, n) && s'.inFlight[w] < s'.next)
            && (forall v, w :: v in s'.inFlight && w in s'.inFlight && v != w ==> s'.inFlight[v] != s'.inFlight[w])
            && (s'.next < n && !s'.aborted ==> s'.inFlight.Keys == Upto(Workers(concurrency, n)))
  {
    var s' := After(s, e);
    assert s'.inFlight.Keys == if s.next < n && !s.aborted then s.inFlight.Keys else s.inFlight.Keys - {e.worker};
    assert forall w :: w in s'.inFlight ==>
        s'.inFlight[w] == if w == e.worker then s.next else s.inFlight[w];
  }

  /** The worker of a settling upload claims the next file, if there is one and no abort. */
  lemma InFlightAfter<R, E>(s: State<R, E>, e: Event<R, E>)
    requires Possible(s, e) && e.Settle?
    ensures if s.next < |s.results| && !s.aborted
            then After(s, e).next == s.next + 1 && After(s, e).inFlight == s.inFlight[e.worker := s.next]
            else After(s, e).next == s.next && After(s, e).inFlight == s.inFlight - {e.worker}
  {
    assert (s.inFlight - {e.worker})[e.worker := s.next] == s.inFlight[e.worker := s.next];
  }

  /** A settling upload settles its own index and no other; in particular the newly claimed one is in flight. */
  lemma SettledAfter<R, E>(s: State<R, E>, e: Event<R, E>, n: nat, concurrency: int, i: nat)
    requires Inv(s, n, concurrency) && Possible(s, e) && e.Settle? && i < n
    ensures Settled(After(s, e), i) <==> Settled(s, i) || i == s.inFlight[e.worker]
  {
    InFlightAfter(s, e);
    hide After;
    var m, m' := s.inFlight, After(s, e).inFlight;
    if i in m.Values && i != m[e.worker] {
      var w :| w in m && m[w] == i;
      assert m'[w] == i;
    }
    if i in m'.Values {
      var w :| w in m' && m'[w] == i;
      assert w != e.worker ==> w in m && m[w] == i;
    }
    assert e.worker in m' ==> m'[e.worker] == s.next;
  }

  lemma SettledStep<R, E>(s: State<R, E>, e: Event<R, E>, n: nat, concurrency: int, i: nat)
    requires Inv(s, n, concurrency) && Possible(s, e) && i < n && Settled(s, i)
    ensures Settled(After(s, e), i)
  {
    if e.Settle? {
      SettledAfter(s, e, n, concurrency, i);
    }
  }

  lemma {:induction false} RunInv<R(!new), E(!new)>(n: nat, concurrency: int, aborted: bool,
                                                    states: seq<State<R, E>>, events: seq<Event<R, E>>, k: nat)
    requires Run(n, concurrency, aborted, states, events) && k <= |events|
    ensures Inv(states[k], n, concurrency)
  {
    if k == 0 {
      StartedInv<R, E>(n, concurrency, aborted);
    } else {
      RunInv(n, concurrency, aborted, states, events, k - 1);
      StepInv(states[k - 1], events[k - 1], n, concurrency);
    }
  }

  lemma {:induction false} SettledStays<R(!new), E(!new)>(
    n: nat, concurrency: int, aborted: bool, states: seq<State<R, E>>, events: seq<Event<R, E>>, j: nat, k: nat, i: nat)
    requires Run(n, concurrency, aborted, states, events) && j <= k <= |events| && i < n && Settled(states[j], i)
    ensures Settled(states[k], i)
    decreases k
  {
    if j < k {
      hide After, Settled, Inv, Possible, Started;
      SettledStays(n, concurrency, aborted, states, events, j, k - 1, i);
      RunInv(n, concurrency, aborted, states, events, k - 1);
      SettledStep(states[k - 1], events[k - 1], n, concurrency, i);
    }
  }

  /** No file is uploaded twice: two different settlements of a run are those of two different files. */
  lemma EachFileOnce<R(!new), E(!new)>(
    n: nat, concurrency: int, aborted: bool, states: seq<State<R, E>>, events: seq<Event<R, E>>, j: nat, k: nat)
    requires Run(n, concurrency, aborted, states, events) && j < k < |events| && events[j].Settle? && events[k].Settle?
    ensures events[j].worker in states[j].inFlight && events[k].worker in states[k].inFlight
    ensures states[j].inFlight[events[j].worker] != states[k].inFlight[events[k].worker]
  {
    var i := states[j].inFlight[events[j].worker];
    RunInv(n, concurrency, aborted, states, events, j);
    SettledAfter(states[j], events[j], n, concurrency, i);
    SettledStays(n, concurrency, aborted, states, events, j + 1, k, i);
    assert states[k].inFlight[events[k].worker] in states[k].inFlight.Values;
  }

  /** At most min(concurrency, n) uploads are in flight, and exactly that many as long as files are left to
      claim and the signal is not aborted. */
  lemma ConcurrencyBound<R(!new), E(!new)>(n: nat, concurrency: int, aborted: bool,
                                           states: seq<State<R, E>>, events: seq<Event<R, E>>, k: nat)
    requires Run(n, concurrency, aborted, states, events) && k <= |events|
    ensures concurrency >= 0 ==> |states[k].inFlight| <= concurrency
    ensures |states[k].inFlight| <= n && (concurrency < 0 ==> states[k].inFlight == map[])
    ensures states[k].next < n && !states[k].aborted && concurrency >= 0 ==>
              |states[k].inFlight| == if concurrency < n then concurrency else n
  {
    RunInv(n, concurrency, aborted, states, events, k);
    var s, all := states[k], Upto(Workers(concurrency, n));
    assert s.inFlight.Keys <= all;
    SubsetSize(s.inFlight.Keys, all);
  }

  lemma {:induction false} SubsetSize(a: set<nat>, b: set<nat>)
    requires a <= b
    ensures |a| <= |b|
  {
    if a != {} {
      var x :| x in a;
      SubsetSize(a - {x}, b - {x});
    }
  }

  // ---------------------------------------------------------------------------
  // Termination
  // ---------------------------------------------------------------------------

  function Remaining<R, E>(s: State<R, E>): int {
    |s.results| - s.next + |s.inFlight|
  }

  function Settlements<R, E>(events: seq<Event<R, E>>): nat {
    if events == [] then 0
    else Settlements(events[..|events| - 1]) + if events[|events| - 1].Settle? then 1 else 0
  }

  lemma StepRemaining<R, E>(s: State<R, E>, e: Event<R, E>, n: nat, concurrency: int)
    requires Inv(s, n, concurrency) && Possible(s, e)
    ensures Remaining(After(s, e)) == Remaining(s) - if e.Settle? then 1 else 0
  {
    if e.Settle? {
      var rest := s.inFlight - {e.worker};
      assert s.inFlight.Keys == rest.Keys + {e.worker};
      assert |s.inFlight| == |rest| + 1;
      if s.next < n && !s.aborted {
        var more := rest[e.worker := s.next];
        assert more.Keys == rest.Keys + {e.worker};
        assert |more| == |rest| + 1;
      }
    }
  }

  lemma StartedRemaining<R, E>(n: nat, concurrency: int, aborted: bool)
    ensures Remaining(Started<R, E>(n, concurrency, aborted)) == n
  {
    var k := Workers(concurrency, n);
    LaunchedWorkers<R, E>(Blank(n, aborted), k);
    assert FirstClaims(k).Keys == Upto(k);
  }

  /** Every settlement uses up one of n units. */
  lemma {:induction false} Accounting<R(!new), E(!new)>(
    n: nat, concurrency: int, aborted: bool, states: seq<State<R, E>>, events: seq<Event<R, E>>, k: nat)
    requires Run(n, concurrency, aborted, states, events) && k <= |events|
    ensures Settlements(events[..k]) + Remaining(states[k]) == n
  {
    if k == 0 {
      StartedRemaining<R, E>(n, concurrency, aborted);
    } else {
      Accounting(n, concurrency, aborted, states, events, k - 1);
      RunInv(n, concurrency, aborted, states, events, k - 1);
      StepRemaining(states[k - 1], events[k - 1], n, concurrency);
      assert events[..k][..k - 1] == events[..k - 1];
    }
  }

  /** A run has at most n settlements; unless the signal is aborted, all workers have returned exactly when
      all n files have settled. */
  lemma Termination<R(!new), E(!new)>(
    n: nat, concurrency: int, aborted: bool, states: seq<State<R, E>>, events: seq<Event<R, E>>)
    requires Run(n, concurrency, aborted, states, events)
    ensures Settlements(events) <= n
    ensures Settlements(events) == n ==> Done(states[|events|]) && states[|events|].next == n
    ensures Done(states[|events|]) && !states[|events|].aborted && concurrency >= 1 ==> Settlements(events) == n
  {
    RunInv(n, concurrency, aborted, states, events, |events|);
    Accounting(n, concurrency, aborted, states, events, |events|);
    assert events[..|events|] == events;
    var s := states[|events|];
    if s.next < n && !s.aborted && concurrency >= 1 {
      assert 0 in s.inFlight.Keys;
    }
  }

  // ---------------------------------------------------------------------------
  // Confluence
  // ---------------------------------------------------------------------------

  /** What a pass over the files one by one leaves. */
  function Sequential<R, E>(outcomes: seq<Outcome<R, E>>): (r: (seq<Option<R>>, seq<Option<E>>))
    ensures |r.0| == |r.1| == |outcomes|
  {
    (seq(|outcomes|, i requires 0 <= i < |outcomes| => outcomes[i].ToResult()),
     seq(|outcomes|, i requires 0 <= i < |outcomes| => outcomes[i].ToError()))
  }

  /** Each upload ends as `outcomes` says for its file, whichever worker performs it and whenever it settles. */
  ghost predicate Follows<R(!new), E(!new)>(
    states: seq<State<R, E>>, events: seq<Event<R, E>>, outcomes: seq<Outcome<R, E>>)
    requires |states| == |events| + 1
  {
    forall k :: 0 <= k < |events| && events[k].Settle? && events[k].worker in states[k].inFlight ==>
      var index := states[k].inFlight[events[k].worker];
      index < |outcomes| && events[k].outcome == outcomes[index]
  }

  ghost predicate Recorded<R, E>(s: State<R, E>, outcomes: seq<Outcome<R, E>>) {
    && |s.results| == |s.errors| == |outcomes|
    && forall i :: 0 <= i < |outcomes| && Settled(s, i) ==>
         s.results[i] == outcomes[i].ToResult() && s.errors[i] == outcomes[i].ToError()
  }

  lemma {:induction false} RunRecords<R(!new), E(!new)>(
    concurrency: int, aborted: bool, states: seq<State<R, E>>, events: seq<Event<R, E>>,
    outcomes: seq<Outcome<R, E>>, k: nat)
    requires Run(|outcomes|, concurrency, aborted, states, events) && k <= |events|
    requires Follows(states, events, outcomes)
    ensures Recorded(states[k], outcomes)
  {
    if k == 0 {
      StartedInv<R, E>(|outcomes|, concurrency, aborted);
    } else {
      RunInv(|outcomes|, concurrency, aborted, states, events, k - 1);
      RunRecords(concurrency, aborted, states, events, outcomes, k - 1);
      StepRecords(states[k - 1], events[k - 1], |outcomes|, concurrency, outcomes);
    }
  }

  lemma StepRecords<R, E>(s: State<R, E>, e: Event<R, E>, n: nat, concurrency: int, outcomes: seq<Outcome<R, E>>)
    requires Inv(s, n, concurrency) && Possible(s, e) && n == |outcomes| && Recorded(s, outcomes)
    requires e.Settle? ==> e.outcome == outcomes[s.inFlight[e.worker]]
    ensures Recorded(After(s, e), outcomes)
  {
    forall i | 0 <= i < n && Settled(After(s, e), i)
      ensures After(s, e).results[i] == outcomes[i].ToResult() && After(s, e).errors[i] == outcomes[i].ToError()
    {
      if e.Settle? {
        SettledAfter(s, e, n, concurrency, i);
        if i == s.inFlight[e.worker] {
          assert !Settled(s, i);
        }
      } else {
        assert Settled(s, i);
      }
    }
  }

  /** For any completion order without an abort, the final arrays are those of a sequential pass, if and only
      if at least one worker was started or there is nothing to upload. */
  lemma Confluence<R(!new), E(!new)>(
    concurrency: int, states: seq<State<R, E>>, events: seq<Event<R, E>>, outcomes: seq<Outcome<R, E>>)
    requires Run(|outcomes|, concurrency, false, states, events) && Follows(states, events, outcomes)
    requires Done(states[|events|]) && !states[|events|].aborted
    ensures (states[|events|].results, states[|events|].errors) == Sequential(outcomes) <==>
            concurrency >= 1 || outcomes == []
  {
    var n, s := |outcomes|, states[|events|];
    RunInv(n, concurrency, false, states, events, |events|);
    RunRecords(concurrency, false, states, events, outcomes, |events|);
    Termination(n, concurrency, false, states, events);
    if concurrency >= 1 || n == 0 {
      forall i | 0 <= i < n ensures Settled(s, i) {}
      assert s.results == Sequential(outcomes).0;
      assert s.errors == Sequential(outcomes).1;
    } else {
      NothingStarted(n, concurrency, states, events, |events|);
      assert !Settled(s, 0);
      assert outcomes[0].ToResult().Some? || outcomes[0].ToError().Some?;
      assert Sequential(outcomes).0[0] == outcomes[0].ToResult();
    }
  }

  lemma {:induction false} NothingStarted<R(!new), E(!new)>(
    n: nat, concurrency: int, states: seq<State<R, E>>, events: seq<Event<R, E>>, k: nat)
    requires Run(n, concurrency, false, states, events) && concurrency < 1 && k <= |events|
    ensures states[k].next == 0 && states[k].inFlight == map[]
  {
    if k > 0 {
      NothingStarted(n, concurrency, states, events, k - 1);
    }
  }

  /** After a whole run every file has exactly one of a result and an error, unless its `onFileComplete`
      throws: then it has both. */
  lemma ExactlyOne<R(!new), E(!new)>(
    concurrency: int, states: seq<State<R, E>>, events: seq<Event<R, E>>, outcomes: seq<Outcome<R, E>>, i: nat)
    requires Run(|outcomes|, concurrency, false, states, events) && Follows(states, events, outcomes)
    requires Done(states[|events|]) && !states[|events|].aborted && concurrency >= 1 && i < |outcomes|
    ensures var s := states[|events|];
            && |s.results| == |s.errors| == |outcomes|
            && (s.results[i].Some? || s.errors[i].Some?)
            && (s.results[i].Some? && s.errors[i].Some? <==> outcomes[i].Resolved? && outcomes[i].thrown.Some?)
  {
    Confluence(concurrency, states, events, outcomes);
    assert Sequential(outcomes).0[i] == outcomes[i].ToResult();
    assert Sequential(outcomes).1[i] == outcomes[i].ToError();
  }

  /** Once the signal is aborted no file is claimed any more: the attempted files stay the prefix of that
      moment, and every other file keeps neither a result nor an error. */
  lemma {:induction false} AbortStopsClaims<R(!new), E(!new)>(
    n: nat, concurrency: int, aborted: bool, states: seq<State<R, E>>, events: seq<Event<R, E>>, j: nat, k: nat)
    requires Run(n, concurrency, aborted, states, events) && j <= k <= |events| && states[j].aborted
    ensures states[k].aborted && states[k].next == states[j].next
    ensures |states[k].results| == |states[k].errors| == n
    ensures forall i :: states[j].next <= i < n ==> states[k].results[i].None? && states[k].errors[i].None?
    decreases k
  {
    RunInv(n, concurrency, aborted, states, events, k);
    if j < k {
      AbortStopsClaims(n, concurrency, aborted, states, events, j, k - 1);
    }
    assert forall i :: states[k].next <= i < n ==> !Settled(states[k], i);
  }

  // ---------------------------------------------------------------------------
  // The scheduler itself
  // ---------------------------------------------------------------------------

  class Uploads<R, E> {
    const count: nat
    var nextIndex: nat
    var aborted: bool
    const results: array<Option<R>>
    const errors: array<Option<E>>
    var inFlight: map<nat, nat>

    ghost predicate Valid()
      reads this, results, errors
    {
      && results as object != errors as object
      && results.Length == count && errors.Length == count && nextIndex <= count
      && forall w :: w in inFlight ==> inFlight[w] < count
    }

    ghost function Now(): State<R, E>
      reads this, results, errors
    {
      State(nextIndex, aborted, results[..], errors[..], inFlight)
    }

    constructor (count: nat, concurrency: int, aborted: bool)
      ensures Valid() && fresh(results) && fresh(errors)
      ensures this.count == count && Now() == Started(count, concurrency, aborted)
    {
      this.count, this.nextIndex, this.aborted, this.inFlight := count, 0, aborted, map[];
      this.results := new Option<R>[count](_ => None);
      this.errors := new Option<E>[count](_ => None);
      new;
      assert Now() == Blank(count, aborted);
      for w := 0 to Workers(concurrency, count)
        invariant Valid() && this.count == count
        invariant fresh(results) && fresh(errors)
        invariant Now() == Launched(Blank(count, aborted), w)
      {
        RunNext(w);
      }
    }

    /** A worker's loop up to its next await. */
    method RunNext(worker: nat)
      requires Valid()
      modifies this`nextIndex, this`inFlight
      ensures Valid() && Now() == Continued(old(Now()), worker)
    {
      if nextIndex < count {
        if aborted {
          return;
        }
        var index := nextIndex;
        nextIndex := nextIndex + 1;
        inFlight := inFlight[worker := index];
      }
    }

    /** The upload of a suspended worker settles. */
    method Settle(worker: nat, outcome: Outcome<R, E>)
      requires Valid() && worker in inFlight
      modifies this`nextIndex, this`inFlight, results, errors
      ensures Valid()
      ensures Possible(old(Now()), Event.Settle(worker, outcome))
      ensures Now() == After(old(Now()), Event.Settle(worker, outcome))
    {
      var index := inFlight[worker];
      inFlight := inFlight - {worker};
      match outcome {
      case Resolved(result, thrown) =>
        results[index] := Some(result);
        if thrown.Some? {
          errors[index] := thrown;
        }
      case Rejected(error) =>
        errors[index] := Some(error);
      }
      assert results[..] == Put(old(results[..]), index, outcome.ToResult());
      assert errors[..] == Put(old(errors[..]), index, outcome.ToError());
      RunNext(worker);
    }
  }

  ghost predicate Progressing<R, E>(s: State<R, E>, outcomes: seq<Outcome<R, E>>, concurrency: int) {
    && Inv(s, |outcomes|, concurrency) && Recorded(s, outcomes) && !s.aborted
    && (concurrency < 1 ==> s.next == 0)
  }

  lemma StartedProgressing<R, E>(outcomes: seq<Outcome<R, E>>, concurrency: int)
    ensures Progressing(Started<R, E>(|outcomes|, concurrency, false), outcomes, concurrency)
  {
    StartedInv<R, E>(|outcomes|, concurrency, false);
    LaunchedWorkers<R, E>(Blank(|outcomes|, false), Workers(concurrency, |outcomes|));
  }

  lemma StepProgressing<R, E>(s: State<R, E>, worker: nat, outcomes: seq<Outcome<R, E>>, concurrency: int)
    requires Progressing(s, outcomes, concurrency) && worker in s.inFlight
    ensures var e := Event.Settle(worker, outcomes[s.inFlight[worker]]);
            && Possible(s, e) && Progressing(After(s, e), outcomes, concurrency)
            && 0 <= Remaining(After(s, e)) < Remaining(s)
  {
    var e := Event.Settle(worker, outcomes[s.inFlight[worker]]);
    StepInv(s, e, |outcomes|, concurrency);
    StepRecords(s, e, |outcomes|, concurrency, outcomes);
    StepRemaining(s, e, |outcomes|, concurrency);
  }

  lemma DoneProgressing<R, E>(s: State<R, E>, outcomes: seq<Outcome<R, E>>, concurrency: int)
    requires Progressing(s, outcomes, concurrency) && Done(s)
    ensures |s.results| == |s.errors| == |outcomes|
    ensures concurrency >= 1 ==> (s.results, s.errors) == Sequential(outcomes)
    ensures concurrency < 1 ==> forall i :: 0 <= i < |outcomes| ==> s.results[i].None? && s.errors[i].None?
  {
    assert concurrency >= 1 && outcomes != [] ==> 0 in Upto(Workers(concurrency, |outcomes|));
    forall i | 0 <= i < |outcomes| ensures Settled(s, i) <==> concurrency >= 1 {}
    if concurrency >= 1 {
      assert s.results == Sequential(outcomes).0;
      assert s.errors == Sequential(outcomes).1;
    }
  }

  /** The whole call without an abort: whichever upload settles next, the arrays it resolves to are those of a
      sequential pass. */
  method UploadAll<R(0), E(0)>(outcomes: seq<Outcome<R, E>>, concurrency: int)
    returns (results: seq<Option<R>>, errors: seq<Option<E>>)
    ensures |results| == |errors| == |outcomes|
    ensures concurrency >= 1 ==> (results, errors) == Sequential(outcomes)
    ensures concurrency < 1 ==> forall i :: 0 <= i < |outcomes| ==> results[i].None? && errors[i].None?
  {
    var uploads := new Uploads<R, E>(|outcomes|, concurrency, false);
    StartedProgressing(outcomes, concurrency);
    while uploads.inFlight != map[]
      invariant uploads.Valid() && fresh(uploads) && fresh(uploads.results) && fresh(uploads.errors)
      invariant Progressing(uploads.Now(), outcomes, concurrency)
      decreases Remaining(uploads.Now())
    {
      var worker :| worker in uploads.inFlight;
      StepProgressing(uploads.Now(), worker, outcomes, concurrency);
      uploads.Settle(worker, outcomes[uploads.inFlight[worker]]);
    }
    DoneProgressing(uploads.Now(), outcomes, concurrency);
    results, errors := uploads.results[..], uploads.errors[..];
  }
}
