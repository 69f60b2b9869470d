/** The login throttle: failed logins of each client in a sliding window, kept as one
    queue per client. The clock is passed in and never runs backwards. */
module LoginThrottle {

  const LIMIT := 5
  const WINDOW := 900.0

  function Ceil(x: real): int { -((-x).Floor) }

  function Max(a: int, b: int): int { if a < b then b else a }

  // ----- What the throttle is asked to remember -----

  datatype Event =
    | Failure(client: string, time: real)
    | Query(client: string, time: real)
    | Success(client: string)
    | Reset

  /** How one call changes a client's failures since its last success. */
  function AfterEvent(times: seq<real>, event: Event, client: string): seq<real> {
    match event
    case Failure(c, time) => if c == client then times + [time] else times
    case Query(_, _) => times
    case Success(c) => if c == client then [] else times
    case Reset => []
  }

  /** The client's failures since its last success or the last reset, oldest first. */
  function Since(history: seq<Event>, client: string): seq<real> {
    if history == [] then []
    else AfterEvent(Since(history[..|history| - 1], client), history[|history| - 1], client)
  }

  /** No call so far was made after this time. */
  predicate Reached(history: seq<Event>, now: real) {
    history == [] ||
    var event := history[|history| - 1];
    (event.Failure? || event.Query? ==> event.time <= now) && Reached(history[..|history| - 1], now)
  }

  /** The clock never ran backwards. */
  predicate Ordered(history: seq<Event>) {
    history == [] ||
    var event, before := history[|history| - 1], history[..|history| - 1];
    Ordered(before) && (event.Failure? || event.Query? ==> Reached(before, event.time))
  }

  lemma {:induction false} ReachedLater(history: seq<Event>, earlier: real, now: real)
    requires Reached(history, earlier) && earlier <= now
    ensures Reached(history, now)
  {
    if history != [] { ReachedLater(history[..|history| - 1], earlier, now); }
  }

  predicate InWindow(time: real, now: real) { now - WINDOW < time }

  /** The times strictly inside the window. */
  function Within(times: seq<real>, now: real): seq<real> {
    if times == [] then []
    else (if InWindow(times[0], now) then [times[0]] else []) + Within(times[1..], now)
  }

  /** The failures that count against a client. */
  function Recent(history: seq<Event>, client: string, now: real): seq<real> {
    Within(Since(history, client), now)
  }

  /** What the client is told to wait. */
  function Wait(entries: seq<real>, now: real): int {
    if |entries| < LIMIT then 0 else Max(1, Ceil(WINDOW - (now - entries[0])))
  }

  // ----- Dropping from the front -----

  predicate Rising(times: seq<real>) {
    forall i, j :: 0 <= i < j < |times| ==> times[i] <= times[j]
  }

  function Pruned(entries: seq<real>, now: real): seq<real> {
    if entries != [] && !InWindow(entries[0], now) then Pruned(entries[1..], now) else entries
  }

  lemma {:induction false} PrunedTwice(entries: seq<real>, earlier: real, now: real)
    requires earlier <= now
    ensures Pruned(Pruned(entries, earlier), now) == Pruned(entries, now)
  {
    if entries != [] && !InWindow(entries[0], earlier) { PrunedTwice(entries[1..], earlier, now); }
  }

  lemma {:induction false} PrunedAppend(entries: seq<real>, time: real, now: real)
    ensures Pruned(entries + [time], now) == Pruned(Pruned(entries, now) + [time], now)
  {
    if entries != [] && !InWindow(entries[0], now) {
      assert (entries + [time])[1..] == entries[1..] + [time];
      PrunedAppend(entries[1..], time, now);
    }
  }

  /** On rising times, dropping old ones from the front keeps exactly those in the window. */
  lemma {:induction false} PrunedWithin(times: seq<real>, now: real)
    requires Rising(times)
    ensures Pruned(times, now) == Within(times, now)
  {
    if times != [] {
      if InWindow(times[0], now) {
        AllWithin(times, now);
      } else {
        PrunedWithin(times[1..], now);
      }
    }
  }

  lemma {:induction false} AllWithin(times: seq<real>, now: real)
    requires forall i :: 0 <= i < |times| ==> InWindow(times[i], now)
    ensures Within(times, now) == times
  {
    if times != [] { AllWithin(times[1..], now); }
  }

  lemma {:induction false} SinceRising(history: seq<Event>, client: string)
    requires Ordered(history)
    ensures Rising(Since(history, client))
  {
    if history != [] {
      var event, before := history[|history| - 1], history[..|history| - 1];
      SinceRising(before, client);
      if event.Failure? { SinceReached(before, client, event.time); }
    }
  }

  lemma {:induction false} SinceReached(history: seq<Event>, client: string, now: real)
    requires Reached(history, now)
    ensures forall i :: 0 <= i < |Since(history, client)| ==> Since(history, client)[i] <= now
  {
    if history != [] { SinceReached(history[..|history| - 1], client, now); }
  }

  lemma {:induction false} PrunedShape(times: seq<real>, now: real)
    ensures |Pruned(times, now)| <= |times| && Pruned(times, now) == times[|times| - |Pruned(times, now)|..]
    ensures Pruned(times, now) != [] ==> InWindow(Pruned(times, now)[0], now)
    ensures |Pruned(times, now)| < |times| ==> !InWindow(times[|times| - |Pruned(times, now)| - 1], now)
  {
    if times != [] && !InWindow(times[0], now) { PrunedShape(times[1..], now); }
  }

  /** The failures from place `k` on, which are those of the last nine hundred seconds. */
  predicate Last900(times: seq<real>, now: real, k: nat) {
    k <= |times| && forall i :: 0 <= i < |times| ==> (k <= i <==> now - times[i] < 900.0)
  }

  /** What counts of rising times is those of the last nine hundred seconds. */
  lemma WithinMeans(times: seq<real>, now: real)
    requires Rising(times)
    ensures exists k: nat :: Last900(times, now, k) && Within(times, now) == times[k..]
  {
    hide Pruned;
    PrunedWithin(times, now);
    PrunedShape(times, now);
    var k := |times| - |Pruned(times, now)|;
    assert k < |times| ==> times[k..][0] == times[k];
    forall i | 0 <= i < |times| ensures k <= i <==> now - times[i] < 900.0 {
      assert i < k ==> times[i] <= times[k - 1];
    }
    assert Last900(times, now, k);
  }

  // ----- The throttle -----

  function Entries(failures: map<string, seq<real>>, client: string): seq<real> {
    if client in failures then failures[client] else []
  }

  /** From the last call on, pruning a queue yields what pruning the full record would. */
  ghost predicate Tracks(entries: seq<real>, times: seq<real>, history: seq<Event>) {
    forall now :: Reached(history, now) ==> Pruned(entries, now) == Pruned(times, now)
  }

  ghost predicate Represents(failures: map<string, seq<real>>, history: seq<Event>) {
    Ordered(history) && forall client :: Tracks(Entries(failures, client), Since(history, client), history)
  }

  class Throttle {
    var failures: map<string, seq<real>>
    /** Every call made so far. */
    ghost var history: seq<Event>

    ghost predicate Valid()
      reads this
    {
      Represents(failures, history)
    }

    constructor ()
      ensures Valid() && history == []
    {
      failures, history := map[], [];
    }

    method Prune(client: string, now: real) returns (entries: seq<real>)
      modifies this`failures
      ensures entries == Pruned(Entries(old(failures), client), now)
      ensures failures == old(failures)[client := entries]
    {
      entries := Entries(failures, client);
      while entries != [] && !InWindow(entries[0], now)
        invariant Pruned(entries, now) == Pruned(Entries(failures, client), now)
        decreases |entries|
      {
        entries := entries[1..];
      }
      failures := failures[client := entries];
    }

    method WaitOf(entries: seq<real>, now: real) returns (wait: int)
      ensures wait == Wait(entries, now)
    {
      if |entries| < LIMIT { return 0; }
      wait := Max(1, Ceil(WINDOW - (now - entries[0])));
    }

    /** The wait follows from the recent failures alone, whatever has been pruned before. */
    method RetryAfter(client: string, now: real) returns (wait: int)
      requires Valid() && Reached(history, now)
      modifies this
      ensures Valid() && history == old(history) + [Query(client, now)]
      ensures wait == Wait(Recent(history, client, now), now)
    {
      hide Pruned;
      hide Since;
      hide Represents;
      hide Wait;
      QuerySeen(failures, history, client, now);
      QueryKeeps(failures, history, client, now);
      var entries := Prune(client, now);
      history := history + [Query(client, now)];
      wait := WaitOf(entries, now);
    }

    method RecordFailure(client: string, now: real) returns (wait: int)
      requires Valid() && Reached(history, now)
      modifies this
      ensures Valid() && history == old(history) + [Failure(client, now)]
      ensures wait == Wait(Recent(history, client, now), now)
    {
      hide Pruned;
      hide Since;
      hide Represents;
      hide Wait;
      var entries := Prune(client, now);
      entries := entries + [now];
      failures := failures[client := entries];
      history := history + [Failure(client, now)];
      assert failures == old(failures)[client := entries];
      FailureKeeps(old(failures), old(history), client, now);
      FailureSeen(failures, old(history), client, now);
      AppendedStays(Entries(old(failures), client), now);
      assert Entries(failures, client) == entries;
      wait := WaitOf(entries, now);
    }

    method RecordSuccess(client: string)
      requires Valid()
      modifies this
      ensures Valid() && history == old(history) + [Success(client)]
      ensures forall now :: Recent(history, client, now) == []
    {
      failures := failures - {client};
      history := history + [Success(client)];
      SinceStep(old(history), Success(client));
      assert history[..|history| - 1] == old(history);
      forall c ensures Tracks(Entries(failures, c), Since(history, c), history) {
        assert Tracks(Entries(old(failures), c), Since(old(history), c), old(history));
      }
    }

    method Clear()
      requires Valid()
      modifies this
      ensures Valid() && history == old(history) + [Reset]
      ensures forall client, now :: Recent(history, client, now) == []
    {
      failures := map[];
      history := history + [Reset];
      assert history[..|history| - 1] == old(history);
    }
  }

  lemma QueryTracks(entries: seq<real>, times: seq<real>, history: seq<Event>, time: real)
    requires Tracks(entries, times, history) && Reached(history, time)
    ensures forall now :: time <= now && Reached(history, now) ==>
      Pruned(Pruned(entries, time), now) == Pruned(times, now)
  {
    hide Pruned;
    forall now | time <= now && Reached(history, now) ensures Pruned(Pruned(entries, time), now) == Pruned(times, now) {
      PrunedTwice(entries, time, now);
    }
  }

  lemma FailureTracks(entries: seq<real>, times: seq<real>, history: seq<Event>, time: real)
    requires Tracks(entries, times, history) && Reached(history, time)
    ensures forall now :: time <= now && Reached(history, now) ==>
      Pruned(Pruned(entries, time) + [time], now) == Pruned(times + [time], now)
  {
    hide Pruned;
    QueryTracks(entries, times, history, time);
    forall now | time <= now && Reached(history, now)
      ensures Pruned(Pruned(entries, time) + [time], now) == Pruned(times + [time], now)
    {
      PrunedAppend(Pruned(entries, time), time, now);
      PrunedAppend(times, time, now);
    }
  }

  lemma QueryKeeps(failures: map<string, seq<real>>, history: seq<Event>, client: string, time: real)
    requires Represents(failures, history) && Reached(history, time)
    ensures Represents(failures[client := Pruned(Entries(failures, client), time)], history + [Query(client, time)])
  {
    hide Pruned;
    hide Since;
    var next := history + [Query(client, time)];
    assert next[..|history|] == history;
    SinceStep(history, Query(client, time));
    forall c
      ensures Tracks(Entries(failures[client := Pruned(Entries(failures, client), time)], c), Since(next, c), next)
    {
      QueryTracks(Entries(failures, c), Since(history, c), history, time);
    }
  }

  lemma FailureKeeps(failures: map<string, seq<real>>, history: seq<Event>, client: string, time: real)
    requires Represents(failures, history) && Reached(history, time)
    ensures Represents(failures[client := Pruned(Entries(failures, client), time) + [time]],
      history + [Failure(client, time)])
  {
    hide Pruned;
    hide Since;
    var next := history + [Failure(client, time)];
    assert next[..|history|] == history;
    SinceStep(history, Failure(client, time));
    forall c
      ensures Tracks(Entries(failures[client := Pruned(Entries(failures, client), time) + [time]], c),
                     Since(next, c), next)
    {
      FailureTracks(Entries(failures, c), Since(history, c), history, time);
    }
  }

  lemma QuerySeen(failures: map<string, seq<real>>, history: seq<Event>, client: string, now: real)
    requires Represents(failures, history) && Reached(history, now)
    ensures Pruned(Entries(failures, client), now) == Recent(history, client, now)
    ensures Recent(history + [Query(client, now)], client, now) == Recent(history, client, now)
  {
    hide Pruned;
    SinceRising(history, client);
    SinceStep(history, Query(client, now));
    PrunedWithin(Since(history, client), now);
    assert Tracks(Entries(failures, client), Since(history, client), history);
  }

  lemma FailureSeen(failures: map<string, seq<real>>, before: seq<Event>, client: string, now: real)
    requires Represents(failures, before + [Failure(client, now)]) && Reached(before, now)
    ensures Pruned(Entries(failures, client), now) == Recent(before + [Failure(client, now)], client, now)
  {
    hide Pruned;
    hide Since;
    var history := before + [Failure(client, now)];
    assert history[..|before|] == before;
    SinceRising(history, client);
    PrunedWithin(Since(history, client), now);
    assert Tracks(Entries(failures, client), Since(history, client), history);
  }

  lemma SinceStep(history: seq<Event>, event: Event)
    ensures forall c :: Since(history + [event], c) == AfterEvent(Since(history, c), event, c)
  {
    assert (history + [event])[..|history|] == history;
  }

  /** A failure that has just been appended is never pruned at once. */
  lemma AppendedStays(entries: seq<real>, time: real)
    ensures Pruned(Pruned(entries, time) + [time], time) == Pruned(entries, time) + [time]
  {
    PrunedShape(entries, time);
    assert InWindow((Pruned(entries, time) + [time])[0], time);
  }

  // ----- What the advertised wait promises -----

  /** The failures that count at a given time: rising, inside the window, not in the future. */
  predicate Counting(entries: seq<real>, now: real) {
    Rising(entries) && forall i :: 0 <= i < |entries| ==> InWindow(entries[i], now) && entries[i] <= now
  }

  lemma RecentCounts(history: seq<Event>, client: string, now: real)
    requires Ordered(history) && Reached(history, now)
    ensures Counting(Recent(history, client, now), now)
  {
    SinceRising(history, client);
    SinceReached(history, client, now);
    var all := Since(history, client);
    PrunedWithin(all, now);
    PrunedShape(all, now);
  }

  /** A client is told to wait exactly when it has reached the limit, and then between one
      second and the whole window. */
  lemma WaitRange(entries: seq<real>, now: real)
    requires Counting(entries, now)
    ensures Wait(entries, now) > 0 <==> |entries| >= 5
    ensures Wait(entries, now) > 0 ==> 1 <= Wait(entries, now) <= 900
  {
    if |entries| >= 5 {
      assert 0.0 < WINDOW - (now - entries[0]) <= 900.0;
    }
  }

  /** Waiting that long expires the oldest failure, and waiting a second less does not,
      unless one second is all there is. */
  lemma WaitExpiresOldest(entries: seq<real>, now: real, later: real)
    requires Counting(entries, now) && |entries| >= 5 && now <= later
    ensures later >= now + Wait(entries, now) as real ==> later - entries[0] >= 900.0
    ensures later <= now + Wait(entries, now) as real - 1.0 ==> later - entries[0] < 900.0
  {
    var left := WINDOW - (now - entries[0]);
    assert Ceil(left) as real >= left && (Ceil(left) - 1) as real < left;
  }

  /** Without new failures, the client is free again at a later time exactly when the
      fifth failure counted from the newest has left the window. */
  lemma FreeAgain(entries: seq<real>, now: real, later: real)
    requires Counting(entries, now) && |entries| >= 5 && now <= later
    ensures Wait(Pruned(entries, later), later) == 0 <==> later - entries[|entries| - 5] >= 900.0
  {
    PrunedShape(entries, later);
    var kept := Pruned(entries, later);
    var dropped, fifth := |entries| - |kept|, |entries| - 5;
    if |kept| >= 5 {
      assert kept[0] == entries[dropped];
      assert dropped < fifth ==> entries[dropped] <= entries[fifth];
    } else {
      assert fifth < dropped - 1 ==> entries[fifth] <= entries[dropped - 1];
    }
  }

  /** A client that makes no further attempt and comes back after the advertised wait is let in. */
  predicate FreedByWaiting(entries: seq<real>, now: real) {
    var later := now + Wait(entries, now) as real;
    Wait(Pruned(entries, later), later) == 0
  }

  /** What is left of the oldest failure's window. */
  function Left(entries: seq<real>, now: real): real
    requires entries != []
  {
    900.0 - (now - entries[0])
  }

  /** The advertised wait frees the client exactly when the fifth failure from the newest came
      after the oldest by no more than rounding up adds to what is left of the window. */
  lemma FreedExactly(entries: seq<real>, now: real)
    requires Counting(entries, now) && |entries| >= 5
    ensures FreedByWaiting(entries, now) <==>
      entries[|entries| - 5] - entries[0] <= Ceil(Left(entries, now)) as real - Left(entries, now)
  {
    WaitRange(entries, now);
    FreeAgain(entries, now, now + Wait(entries, now) as real);
  }

  /** With exactly the limit, the advertised wait frees the client. */
  lemma WaitFreesAtLimit(entries: seq<real>, now: real)
    requires Counting(entries, now) && |entries| == 5
    ensures FreedByWaiting(entries, now)
  {
    WaitRange(entries, now);
    var later := now + Wait(entries, now) as real;
    WaitExpiresOldest(entries, now, later);
    FreeAgain(entries, now, later);
  }

  /** One failure at the start and five a hundred seconds later. */
  function SixFailures(client: string): seq<Event> {
    [Failure(client, 0.0), Failure(client, 100.0), Failure(client, 100.0),
     Failure(client, 100.0), Failure(client, 100.0), Failure(client, 100.0)]
  }

  lemma SixRecorded(client: string, n: nat)
    requires n <= 6
    ensures
      var history, times := SixFailures(client)[..n], [0.0, 100.0, 100.0, 100.0, 100.0, 100.0][..n];
      Ordered(history) && Reached(history, 100.0) && Since(history, client) == times
  {
    if n > 0 {
      var history, times := SixFailures(client), [0.0, 100.0, 100.0, 100.0, 100.0, 100.0];
      SixRecorded(client, n - 1);
      assert history[..n][..n - 1] == history[..n - 1] && times[..n] == times[..n - 1] + [times[n - 1]];
    }
  }

  /** With more than the limit it does not promise that: after these calls the client comes
      back when it was told to and is refused again. */
  lemma WaitMayNotFree(client: string)
    ensures
      var history := SixFailures(client);
      Ordered(history) && Reached(history, 100.0) && !FreedByWaiting(Recent(history, client, 100.0), 100.0)
  {
    var history, times := SixFailures(client), [0.0, 100.0, 100.0, 100.0, 100.0, 100.0];
    SixRecorded(client, 6);
    assert history[..6] == history && times[..6] == times;
    AllWithin(times, 100.0);
    assert Ceil(800.0) == 800;
    FreedExactly(times, 100.0);
  }
}
