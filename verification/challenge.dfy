/** `handle_cloudflare`: up to `max_attempts` tries at getting past the
    Cloudflare interstitial. Each try waits for the page and reads its
    title; a title without "Just a moment" ends the loop with success. A
    failed load or title read wastes the try. Otherwise, when the
    `.main-wrapper` element exists and has a bounding box, one mouse press
    and one release are dispatched at it. */
module Challenge {
  import opened Text
  import opened Browser

  const Marker: string := "Just a moment"
  /** The default `max_attempts`. */
  const DefaultAttempts: int := 20

  /** What `query_selector('.main-wrapper')` and `bounding_box()` gave. */
  datatype Wrapper = NoWrapper | NoBox | Box

  /** One try as observed: the load or title step raised, or the page loaded
      with a title and the wrapper as found. */
  datatype Attempt = LoadFailed | Loaded(title: string, wrapper: Wrapper)

  /** The observation of try `k`. A trace shorter than the number of tries
      stands for a page that stops loading: later tries fail to load. */
  function Obs(trace: seq<Attempt>, k: nat): (a: Attempt)
    ensures k >= |trace| ==> a == LoadFailed
  {
    if k < |trace| then trace[k] else LoadFailed
  }

  /** The try ends the loop with success. */
  predicate Clears(a: Attempt) {
    a.Loaded? && !Contains(a.title, Marker)
  }

  /** The try dispatches a press and a release. */
  predicate Dispatches(a: Attempt) {
    a.Loaded? && Contains(a.title, Marker) && a.wrapper == Box
  }

  /** The events alternate press, release, press, release, ... */
  predicate Paired(events: seq<PointerEvent>) {
    |events| % 2 == 0 && forall i :: 0 <= i < |events| ==> events[i] == (if i % 2 == 0 then Press else Release)
  }

  lemma PairedCons(events: seq<PointerEvent>)
    requires Paired(events)
    ensures Paired([Press, Release] + events)
  {
    var all := [Press, Release] + events;
    forall i | 0 <= i < |all| ensures all[i] == (if i % 2 == 0 then Press else Release) {
      if i >= 2 {
        assert all[i] == events[i - 2];
      }
    }
  }

  /** The number of tries `k <= j < m` that dispatch mouse events. */
  function DispatchCount(trace: seq<Attempt>, k: nat, m: nat): nat
    decreases m - k
  {
    if k >= m then 0
    else (if Dispatches(Obs(trace, k)) then 1 else 0) + DispatchCount(trace, k + 1, m)
  }

  /** The result of the loop: whether it succeeded, how many tries it used
      and the mouse events it dispatched. */
  datatype Outcome = Outcome(cleared: bool, used: nat, events: seq<PointerEvent>)

  /** Tries `k` up to `n`. */
  function Loop(trace: seq<Attempt>, k: nat, n: nat): (o: Outcome)
    requires k <= n
    decreases n - k
    ensures k <= o.used <= n
    ensures o.cleared <==> exists j :: k <= j < n && Clears(Obs(trace, j))
    ensures o.cleared ==> k < o.used && Clears(Obs(trace, o.used - 1))
    ensures forall j :: k <= j < o.used - 1 ==> !Clears(Obs(trace, j))
    ensures !o.cleared ==> o.used == n
    ensures |o.events| == 2 * DispatchCount(trace, k, o.used)
    ensures Paired(o.events)
  {
    if k == n then Outcome(false, n, [])
    else if Clears(Obs(trace, k)) then Outcome(true, k + 1, [])
    else
      var rest := Loop(trace, k + 1, n);
      if Dispatches(Obs(trace, k)) then
        PairedCons(rest.events);
        Outcome(rest.cleared, rest.used, [Press, Release] + rest.events)
      else rest
  }

  /** The number of tries `range(max_attempts)` makes. */
  function Tries(maxAttempts: int): nat {
    if maxAttempts > 0 then maxAttempts else 0
  }

  /** `handle_cloudflare(max_attempts)`: succeeds exactly when one of the
      first `max_attempts` tries clears, and then at the first such try;
      every try before it that saw the marker and a wrapper box dispatched
      one press and one release, and the clearing try dispatched none. */
  function Clear(trace: seq<Attempt>, maxAttempts: int): (o: Outcome)
    ensures o.cleared <==> exists j :: 0 <= j < maxAttempts && Clears(Obs(trace, j))
    ensures o.cleared ==> 0 < o.used <= maxAttempts && Clears(Obs(trace, o.used - 1))
    ensures forall j :: 0 <= j < o.used - 1 ==> !Clears(Obs(trace, j))
    ensures !o.cleared ==> o.used == Tries(maxAttempts)
    ensures |o.events| == 2 * DispatchCount(trace, 0, o.used)
    ensures Paired(o.events)
  {
    Loop(trace, 0, Tries(maxAttempts))
  }

  /** The mouse events of a challenge run, as browser actions: page
      actions only, and nothing but mouse events. */
  function Clicks(trace: seq<Attempt>, maxAttempts: int): (r: seq<Action>)
    ensures forall i :: 0 <= i < |r| ==> r[i].Pointer?
    ensures NoNavigation(r) && PageOnly(r)
  {
    Pointers(Clear(trace, maxAttempts).events)
  }

  /** No tries means no success and no events. */
  lemma ZeroAttempts(trace: seq<Attempt>, maxAttempts: int)
    requires maxAttempts <= 0
    ensures Clear(trace, maxAttempts) == Outcome(false, 0, [])
  {
  }

  /** A load that fails on every try dispatches nothing and fails. */
  lemma {:induction false} NeverLoads(trace: seq<Attempt>, k: nat, n: nat)
    requires k <= n
    requires forall j :: k <= j < n ==> Obs(trace, j) == LoadFailed
    decreases n - k
    ensures Loop(trace, k, n) == Outcome(false, n, [])
  {
    if k < n {
      NeverLoads(trace, k + 1, n);
    }
  }

  /** A page that clears within `n` tries clears the same way, with the same
      events, under any larger budget: extra tries are never reached. */
  lemma {:induction false} MoreTriesAgree(trace: seq<Attempt>, k: nat, n: nat, m: nat)
    requires k <= n <= m
    requires Loop(trace, k, n).cleared
    decreases n - k
    ensures Loop(trace, k, m) == Loop(trace, k, n)
  {
    if !Clears(Obs(trace, k)) {
      MoreTriesAgree(trace, k + 1, n, m);
    }
  }

  /** The same for `handle_cloudflare`'s argument. */
  lemma MoreAttemptsAgree(trace: seq<Attempt>, n: int, m: int)
    requires n <= m && Clear(trace, n).cleared
    ensures Clear(trace, m) == Clear(trace, n)
  {
    MoreTriesAgree(trace, 0, Tries(n), Tries(m));
  }

  /** Only the observations of the tries actually made matter. */
  lemma {:induction false} UnusedTriesIrrelevant(t1: seq<Attempt>, t2: seq<Attempt>, k: nat, n: nat)
    requires k <= n
    requires forall j :: k <= j < Loop(t1, k, n).used ==> Obs(t1, j) == Obs(t2, j)
    decreases n - k
    ensures Loop(t2, k, n) == Loop(t1, k, n)
  {
    if k < n && !Clears(Obs(t1, k)) {
      UnusedTriesIrrelevant(t1, t2, k + 1, n);
    }
  }
}
