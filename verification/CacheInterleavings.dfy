/**
 * Interleaved lookups on the entitlement cache of `tracecat/service.py`: when the order of use survives
 * suspended misses, and when a cached answer can be lost.
 */
module CacheInterleavings {
  import opened EntitlementCache
  import opened Wrappers

  // ---------------------------------------------------------------- runs

  /** The lookup that an event completes: a hit, or a miss that lands. */
  function Done(s: State, e: Event): seq<Key> {
    match e
    case Lookup(k) => if k in s.values then [k] else []
    case Resume(k) => if k in s.waiting then [k] else []
    case Cancel(_) => []
  }

  /** The completed lookups of a run, in the order of completion. */
  function Completed(capacity: nat, isEntitled: Key -> bool, s: State, events: seq<Event>): seq<Key>
    decreases |events|
  {
    if events == [] then []
    else Done(s, events[0]) + Completed(capacity, isEntitled, Step(capacity, isEntitled, s, events[0]), events[1..])
  }

  /** No key is looked up while a miss on it is suspended. */
  ghost predicate Disciplined(capacity: nat, isEntitled: Key -> bool, s: State, events: seq<Event>)
    decreases |events|
  {
    events != [] ==>
      && (events[0].Lookup? ==> events[0].k !in s.waiting)
      && Disciplined(capacity, isEntitled, Step(capacity, isEntitled, s, events[0]), events[1..])
  }

  /** The cache holds the most recently completed keys that fit, oldest first. */
  ghost predicate InOrder(capacity: nat, s: State, uses: seq<Key>) {
    s.order == Last(Recency(uses), capacity)
  }

  lemma {:induction false} StepsConcat(capacity: nat, isEntitled: Key -> bool, s: State, a: seq<Event>, b: seq<Event>)
    ensures Steps(capacity, isEntitled, s, a + b) ==
            Steps(capacity, isEntitled, Steps(capacity, isEntitled, s, a), b)
    decreases |a|
  {
    if a == [] {
      assert a + b == b;
    } else {
      assert (a + b)[1..] == a[1..] + b;
      StepsConcat(capacity, isEntitled, Step(capacity, isEntitled, s, a[0]), a[1..], b);
    }
  }

  lemma {:induction false} CompletedConcat(
      capacity: nat, isEntitled: Key -> bool, s: State, a: seq<Event>, b: seq<Event>)
    ensures Completed(capacity, isEntitled, s, a + b) ==
            Completed(capacity, isEntitled, s, a) +
            Completed(capacity, isEntitled, Steps(capacity, isEntitled, s, a), b)
    decreases |a|
  {
    if a == [] {
      assert a + b == b;
    } else {
      assert (a + b)[1..] == a[1..] + b;
      CompletedConcat(capacity, isEntitled, Step(capacity, isEntitled, s, a[0]), a[1..], b);
    }
  }

  lemma {:induction false} DisciplinedConcat(
      capacity: nat, isEntitled: Key -> bool, s: State, a: seq<Event>, b: seq<Event>)
    ensures Disciplined(capacity, isEntitled, s, a + b) <==>
            Disciplined(capacity, isEntitled, s, a) &&
            Disciplined(capacity, isEntitled, Steps(capacity, isEntitled, s, a), b)
    decreases |a|
  {
    if a == [] {
      assert a + b == b;
    } else {
      assert (a + b)[1..] == a[1..] + b;
      DisciplinedConcat(capacity, isEntitled, Step(capacity, isEntitled, s, a[0]), a[1..], b);
    }
  }

  lemma {:induction false} OneStep(capacity: nat, isEntitled: Key -> bool, s: State, e: Event)
    ensures Steps(capacity, isEntitled, s, [e]) == Step(capacity, isEntitled, s, e)
    ensures Completed(capacity, isEntitled, s, [e]) == Done(s, e)
    ensures Disciplined(capacity, isEntitled, s, [e]) <==> (e.Lookup? ==> e.k !in s.waiting)
  {
    assert [e][1..] == [];
  }

  // ---------------------------------------------------------------- recency in disciplined runs

  /** Each suspended miss is the only one on its key, and that key is not cached. */
  ghost predicate Apart(s: State) {
    forall k :: k in s.waiting ==> s.waiting[k] == 1 && k !in s.values
  }

  lemma StaysApart(capacity: nat, isEntitled: Key -> bool, s: State, e: Event)
    requires Apart(s) && (e.Lookup? ==> e.k !in s.waiting)
    ensures Apart(Step(capacity, isEntitled, s, e))
  {}

  /** The condition of `LandKeepsRecency`, over the lookups completed before a miss lands. */
  ghost predicate Harmless(capacity: nat, uses: seq<Key>, k: Key)
    requires capacity > 0
  {
    var recent := Last(Recency(uses), capacity);
    k !in recent || (if |recent| == capacity then recent[0] == k else recent[|recent| - 1] == k)
  }

  /** One event keeps the order unless it is a miss that lands and is not harmless. */
  lemma StepInOrder(capacity: nat, isEntitled: Key -> bool, s: State, uses: seq<Key>, e: Event)
    requires Sound(capacity, s.order, s.values, isEntitled) && InOrder(capacity, s, uses)
    ensures InOrder(capacity, Step(capacity, isEntitled, s, e), uses + Done(s, e)) <==>
            (e.Resume? && e.k in s.waiting ==> Harmless(capacity, uses, e.k))
  {
    if Done(s, e) == [] {
      assert uses + [] == uses;
    } else if e.Lookup? {
      RecencySnoc(capacity, uses, e.k, s.order);
    } else {
      LandKeepsRecency(capacity, uses, e.k);
    }
  }

  /** A sound cache in the order of the given uses, with each suspended miss on a key of its own. */
  ghost predicate Orderly(capacity: nat, isEntitled: Key -> bool, s: State, uses: seq<Key>) {
    Sound(capacity, s.order, s.values, isEntitled) && InOrder(capacity, s, uses) && Apart(s)
  }

  lemma OrderlyStep(capacity: nat, isEntitled: Key -> bool, s: State, uses: seq<Key>, e: Event)
    requires Orderly(capacity, isEntitled, s, uses) && (e.Lookup? ==> e.k !in s.waiting)
    ensures Orderly(capacity, isEntitled, Step(capacity, isEntitled, s, e), uses + Done(s, e))
  {
    StaysApart(capacity, isEntitled, s, e);
    StepIsSound(capacity, isEntitled, s, e);
    StepInOrder(capacity, isEntitled, s, uses, e);
  }

  /** One more event at the end of a run. */
  lemma {:induction false} RunSnoc(
      capacity: nat, isEntitled: Key -> bool, s: State, whole: seq<Event>, front: seq<Event>, e: Event, middle: State)
    requires whole == front + [e] && middle == Steps(capacity, isEntitled, s, front)
    ensures Steps(capacity, isEntitled, s, whole) == Step(capacity, isEntitled, middle, e)
    ensures Completed(capacity, isEntitled, s, whole) == Completed(capacity, isEntitled, s, front) + Done(middle, e)
  {
    StepsConcat(capacity, isEntitled, s, front, [e]);
    CompletedConcat(capacity, isEntitled, s, front, [e]);
    OneStep(capacity, isEntitled, middle, e);
  }

  lemma {:induction false} DisciplinedSnoc(
      capacity: nat, isEntitled: Key -> bool, s: State, whole: seq<Event>, front: seq<Event>, e: Event, middle: State)
    requires whole == front + [e] && middle == Steps(capacity, isEntitled, s, front)
    ensures Disciplined(capacity, isEntitled, s, whole) <==>
            Disciplined(capacity, isEntitled, s, front) && (e.Lookup? ==> e.k !in middle.waiting)
  {
    DisciplinedConcat(capacity, isEntitled, s, front, [e]);
    OneStep(capacity, isEntitled, middle, e);
  }

  /** Three lists of uses, each a continuation of the one before. */
  lemma UsesConcat(uses: seq<Key>, completed: seq<Key>, done: seq<Key>)
    ensures uses + (completed + done) == uses + completed + done
    ensures uses + [] == uses
  {}

  lemma OrderlyMore(
      capacity: nat, isEntitled: Key -> bool, s: State, uses: seq<Key>, e: Event, more: seq<Key>, after: State)
    requires Orderly(capacity, isEntitled, s, uses) && (e.Lookup? ==> e.k !in s.waiting)
    requires more == uses + Done(s, e) && after == Step(capacity, isEntitled, s, e)
    ensures Orderly(capacity, isEntitled, after, more)
  {
    OrderlyStep(capacity, isEntitled, s, uses, e);
  }

  /** From any orderly cache, a disciplined run keeps the cache in the order of completed lookups. */
  lemma {:induction false} DisciplinedRun(
      capacity: nat, isEntitled: Key -> bool, s: State, uses: seq<Key>, events: seq<Event>, after: State, all: seq<Key>)
    requires Orderly(capacity, isEntitled, s, uses) && Disciplined(capacity, isEntitled, s, events)
    requires after == Steps(capacity, isEntitled, s, events) && all == uses + Completed(capacity, isEntitled, s, events)
    ensures Orderly(capacity, isEntitled, after, all)
    decreases |events|
  {
    if events == [] {
      UsesConcat(uses, [], []);
      assert after == s && all == uses;
    } else {
      var front, e := events[..|events| - 1], events[|events| - 1];
      var middle := Steps(capacity, isEntitled, s, front);
      var completed := uses + Completed(capacity, isEntitled, s, front);
      RunSnoc(capacity, isEntitled, s, events, front, e, middle);
      DisciplinedSnoc(capacity, isEntitled, s, events, front, e, middle);
      UsesConcat(uses, Completed(capacity, isEntitled, s, front), Done(middle, e));
      DisciplinedRun(capacity, isEntitled, s, uses, front, middle, completed);
      OrderlyMore(capacity, isEntitled, middle, completed, e, all, after);
    }
  }

  /**
   * If no key is looked up while a miss on it is suspended, then after any sequence of lookups, resumptions
   * and cancellations the cache holds exactly the most recently completed keys that fit, oldest first.
   */
  lemma {:induction false} DisciplinedRunsKeepRecency(capacity: nat, isEntitled: Key -> bool, events: seq<Event>)
    requires capacity > 0 && Disciplined(capacity, isEntitled, EMPTY, events)
    ensures InOrder(capacity, Steps(capacity, isEntitled, EMPTY, events), Completed(capacity, isEntitled, EMPTY, events))
  {
    DisciplinedRun(capacity, isEntitled, EMPTY, [], events, Steps(capacity, isEntitled, EMPTY, events),
                   Completed(capacity, isEntitled, EMPTY, events));
    assert [] + Completed(capacity, isEntitled, EMPTY, events) == Completed(capacity, isEntitled, EMPTY, events);
  }

  // ---------------------------------------------------------------- recency in all runs

  /** The order is right at the start and after every event of the run. */
  ghost predicate AlwaysInOrder(capacity: nat, isEntitled: Key -> bool, s: State, uses: seq<Key>, events: seq<Event>)
    decreases |events|
  {
    && InOrder(capacity, s, uses)
    && (events != [] ==>
          AlwaysInOrder(capacity, isEntitled, Step(capacity, isEntitled, s, events[0]), uses + Done(s, events[0]), events[1..]))
  }

  /** Every miss that lands in the run is harmless by the lookups completed before it. */
  ghost predicate AllHarmless(capacity: nat, isEntitled: Key -> bool, s: State, uses: seq<Key>, events: seq<Event>)
    requires capacity > 0
    decreases |events|
  {
    events != [] ==>
      && (events[0].Resume? && events[0].k in s.waiting ==> Harmless(capacity, uses, events[0].k))
      && AllHarmless(capacity, isEntitled, Step(capacity, isEntitled, s, events[0]), uses + Done(s, events[0]), events[1..])
  }

  /**
   * Any run at all, disciplined or not, keeps the order throughout exactly when each landing miss finds its
   * key, by the lookups completed so far, not among the last ones that fit, or at the one place among them
   * where eviction or the tail makes up for the missing `move_to_end`.
   */
  lemma {:induction false} OrderKeptExactly(
      capacity: nat, isEntitled: Key -> bool, s: State, uses: seq<Key>, events: seq<Event>)
    requires Sound(capacity, s.order, s.values, isEntitled) && InOrder(capacity, s, uses)
    ensures AlwaysInOrder(capacity, isEntitled, s, uses, events) <==>
            AllHarmless(capacity, isEntitled, s, uses, events)
    decreases |events|
  {
    if events != [] {
      var e, s' := events[0], Step(capacity, isEntitled, s, events[0]);
      StepInOrder(capacity, isEntitled, s, uses, e);
      StepIsSound(capacity, isEntitled, s, e);
      if InOrder(capacity, s', uses + Done(s, e)) {
        OrderKeptExactly(capacity, isEntitled, s', uses + Done(s, e), events[1..]);
      }
    }
  }

  // ---------------------------------------------------------------- the discipline is needed

  /** Where a run leads, and the lookups it completes. */
  ghost predicate Goes(capacity: nat, isEntitled: Key -> bool, s: State, events: seq<Event>, after: State, done: seq<Key>) {
    Steps(capacity, isEntitled, s, events) == after && Completed(capacity, isEntitled, s, events) == done
  }

  /** A disciplined run, where it leads, and the lookups it completes. */
  ghost predicate Runs(capacity: nat, isEntitled: Key -> bool, s: State, events: seq<Event>, after: State, done: seq<Key>) {
    Goes(capacity, isEntitled, s, events, after, done) && Disciplined(capacity, isEntitled, s, events)
  }

  lemma GoesOn(capacity: nat, isEntitled: Key -> bool, s: State, a: seq<Event>, middle: State, done: seq<Key>,
               b: seq<Event>, after: State, more: seq<Key>, whole: seq<Event>, all: seq<Key>)
    requires Goes(capacity, isEntitled, s, a, middle, done) && Goes(capacity, isEntitled, middle, b, after, more)
    requires whole == a + b && all == done + more
    ensures Goes(capacity, isEntitled, s, whole, after, all)
  {
    StepsConcat(capacity, isEntitled, s, a, b);
    CompletedConcat(capacity, isEntitled, s, a, b);
  }

  lemma TwoSteps(capacity: nat, isEntitled: Key -> bool, s: State, e: Event, middle: State, f: Event, after: State,
                 first: seq<Key>, second: seq<Key>, both: seq<Key>)
    requires middle == Step(capacity, isEntitled, s, e) && after == Step(capacity, isEntitled, middle, f)
    requires first == Done(s, e) && second == Done(middle, f) && both == first + second
    ensures Goes(capacity, isEntitled, s, [e] + [f], after, both)
  {
    OneStep(capacity, isEntitled, s, e);
    OneStep(capacity, isEntitled, middle, f);
    GoesOn(capacity, isEntitled, s, [e], middle, first, [f], after, second, [e] + [f], both);
  }

  lemma Chain(capacity: nat, isEntitled: Key -> bool, s: State, a: seq<Event>, middle: State, done: seq<Key>,
              b: seq<Event>, after: State, more: seq<Key>, whole: seq<Event>, all: seq<Key>)
    requires Runs(capacity, isEntitled, s, a, middle, done) && Runs(capacity, isEntitled, middle, b, after, more)
    requires whole == a + b && all == done + more
    ensures Runs(capacity, isEntitled, s, whole, after, all)
  {
    GoesOn(capacity, isEntitled, s, a, middle, done, b, after, more, whole, all);
    DisciplinedConcat(capacity, isEntitled, s, a, b);
  }

  lemma RunsOne(capacity: nat, isEntitled: Key -> bool, s: State, e: Event, after: State, done: seq<Key>)
    requires after == Step(capacity, isEntitled, s, e) && done == Done(s, e) && (e.Lookup? ==> e.k !in s.waiting)
    ensures Runs(capacity, isEntitled, s, [e], after, done)
  {
    OneStep(capacity, isEntitled, s, e);
  }

  /** Three disciplined runs in a row, on some keys. */
  lemma ChainThree(capacity: nat, isEntitled: Key -> bool, keys: set<Key>, s: State,
                   a: seq<Event>, s1: State, x: Key, b: seq<Event>, s2: State, y: Key, c: seq<Event>, s3: State, z: Key)
    returns (more: seq<Event>)
    requires Runs(capacity, isEntitled, s, a, s1, [x]) && Runs(capacity, isEntitled, s1, b, s2, [y])
    requires Runs(capacity, isEntitled, s2, c, s3, [z])
    requires UsesOnly(keys, a) && UsesOnly(keys, b) && UsesOnly(keys, c)
    ensures Runs(capacity, isEntitled, s, more, s3, [x, y, z]) && UsesOnly(keys, more)
  {
    more := a + (b + c);
    Chain(capacity, isEntitled, s1, b, s2, [y], c, s3, [z], b + c, [y, z]);
    Chain(capacity, isEntitled, s, a, s1, [x], b + c, s3, [y, z], more, [x, y, z]);
  }

  /** A suspended miss lands. */
  lemma Lands(capacity: nat, isEntitled: Key -> bool, s: State, k: Key) returns (more: seq<Event>, after: State)
    requires Sound(capacity, s.order, s.values, isEntitled) && k in s.waiting
    ensures Runs(capacity, isEntitled, s, more, after, [k]) && UsesOnly({k}, more)
    ensures Sound(capacity, after.order, after.values, isEntitled)
    ensures after.order == Land(capacity, s.order, k) && after.waiting == s.waiting - multiset{k}
    ensures forall j :: j in after.values ==> j in s.values || j == k
  {
    more, after := [Resume(k)], Step(capacity, isEntitled, s, Resume(k));
    RunsOne(capacity, isEntitled, s, Resume(k), after, [k]);
    StepIsSound(capacity, isEntitled, s, Resume(k));
  }

  /** A key that is neither cached nor suspended is missed and lands at once. */
  lemma MissesAndLands(capacity: nat, isEntitled: Key -> bool, s: State, k: Key) returns (after: State)
    requires Sound(capacity, s.order, s.values, isEntitled) && k !in s.values && k !in s.waiting
    ensures Runs(capacity, isEntitled, s, [Lookup(k)] + [Resume(k)], after, [k])
    ensures Sound(capacity, after.order, after.values, isEntitled)
    ensures after.order == Touch(capacity, s.order, k) && after.waiting == s.waiting
  {
    var missed := Step(capacity, isEntitled, s, Lookup(k));
    after := Step(capacity, isEntitled, missed, Resume(k));
    RunsOne(capacity, isEntitled, s, Lookup(k), missed, []);
    RunsOne(capacity, isEntitled, missed, Resume(k), after, [k]);
    Chain(capacity, isEntitled, s, [Lookup(k)], missed, [], [Resume(k)], after, [k], [Lookup(k)] + [Resume(k)], [k]);
    StepIsSound(capacity, isEntitled, missed, Resume(k));
  }

  /** Any key can be used once with discipline, whatever is suspended. */
  lemma UsesOnce(capacity: nat, isEntitled: Key -> bool, s: State, j: Key) returns (more: seq<Event>, after: State)
    requires Sound(capacity, s.order, s.values, isEntitled) && (j in s.waiting ==> j !in s.values)
    ensures Runs(capacity, isEntitled, s, more, after, [j]) && UsesOnly({j}, more)
    ensures Sound(capacity, after.order, after.values, isEntitled)
    ensures after.order == Touch(capacity, s.order, j)
    ensures forall k :: k != j ==> after.waiting[k] == s.waiting[k]
  {
    if j in s.values {
      more, after := [Lookup(j)], Step(capacity, isEntitled, s, Lookup(j));
      RunsOne(capacity, isEntitled, s, Lookup(j), after, [j]);
      StepIsSound(capacity, isEntitled, s, Lookup(j));
    } else if j in s.waiting {
      more, after := Lands(capacity, isEntitled, s, j);
    } else {
      more := [Lookup(j)] + [Resume(j)];
      after := MissesAndLands(capacity, isEntitled, s, j);
    }
  }

  lemma {:induction false} RecencyEnds(capacity: nat, uses: seq<Key>, k: Key)
    requires capacity > 0
    ensures var recent := Last(Recency(uses + [k]), capacity);
            recent != [] && recent[|recent| - 1] == k
  {
    RecencySnoc(capacity, uses, k, Last(Recency(uses), capacity));
  }

  /** With room for three, one other key between the two landings leaves the wrong key last. */
  lemma LandingsApart(capacity: nat, order: seq<Key>, k: Key, j: Key)
    requires capacity >= 3 && |order| <= capacity && NoDuplicates(order) && k !in order && j != k
    ensures var after := Land(capacity, Touch(capacity, Land(capacity, order, k), j), k);
            after != [] && after[|after| - 1] == j
  {
    var first := Trim(order, capacity) + [k];
    LandFacts(capacity, order, k);
    var second := Touch(capacity, first, j);
    if j in first {
      RemoveFacts(first, j);
    }
    assert second[|second| - 1] == j;
    if k !in Trim(second, capacity) {
      KeptByTouch(capacity, first, k, j);
      assert false;
    }
  }

  /** A key at the tail is still there, and not in front of a full cache, once another key has been used. */
  lemma KeptByTouch(capacity: nat, order: seq<Key>, k: Key, j: Key)
    requires capacity >= 3 && 0 < |order| <= capacity && NoDuplicates(order) && order[|order| - 1] == k && j != k
    ensures k in Trim(Touch(capacity, order, j), capacity)
  {
    var front := order[..|order| - 1];
    assert order == front + [k];
    if j in order {
      assert j in front;
      RemoveFromFront(front, k, j);
      RemoveFacts(order, j);
      assert Touch(capacity, order, j) == Remove(front, j) + [k, j];
      var touched := Touch(capacity, order, j);
      assert touched[|touched| - 2] == k;
    } else {
      var touched := Touch(capacity, order, j);
      assert touched[|touched| - 2] == k;
    }
  }

  lemma {:induction false} RemoveFromFront(front: seq<Key>, k: Key, j: Key)
    requires j in front
    ensures Remove(front + [k], j) == Remove(front, j) + [k]
  {
    assert (front + [k])[1..] == front[1..] + [k];
    if front[0] != j {
      RemoveFromFront(front[1..], k, j);
    }
  }

  /** Some disciplined continuation on two keys puts the cache out of order. */
  ghost predicate Breakable(capacity: nat, isEntitled: Key -> bool, s: State, uses: seq<Key>, k: Key, j: Key) {
    exists more :: Breaks(capacity, isEntitled, s, uses, more) && UsesOnly({k, j}, more)
  }

  ghost predicate Breaks(capacity: nat, isEntitled: Key -> bool, s: State, uses: seq<Key>, more: seq<Event>) {
    && Disciplined(capacity, isEntitled, s, more)
    && !InOrder(capacity, Steps(capacity, isEntitled, s, more), uses + Completed(capacity, isEntitled, s, more))
  }

  ghost predicate UsesOnly(keys: set<Key>, events: seq<Event>) {
    forall i :: 0 <= i < |events| ==> events[i].k in keys
  }

  /** One key with two suspended misses, and every other suspended key not cached. */
  ghost predicate Doubled(capacity: nat, isEntitled: Key -> bool, s: State, k: Key) {
    && Sound(capacity, s.order, s.values, isEntitled)
    && s.waiting[k] >= 2 && (forall j :: j in s.waiting ==> j !in s.values)
  }

  lemma BreaksBy(capacity: nat, isEntitled: Key -> bool, s: State, uses: seq<Key>, k: Key, j: Key,
                 more: seq<Event>, after: State, done: seq<Key>, all: seq<Key>)
    requires Runs(capacity, isEntitled, s, more, after, done) && UsesOnly({k, j}, more)
    requires all == uses + done && !InOrder(capacity, after, all)
    ensures Breakable(capacity, isEntitled, s, uses, k, j)
  {
    assert Breaks(capacity, isEntitled, s, uses, more);
  }

  lemma WideRun(capacity: nat, isEntitled: Key -> bool, s: State, k: Key, j: Key)
    returns (more: seq<Event>, after: State, done: seq<Key>)
    requires capacity >= 3 && Doubled(capacity, isEntitled, s, k) && j != k
    ensures Runs(capacity, isEntitled, s, more, after, done) && UsesOnly({k, j}, more) && done == [k, j, k]
    ensures after.order == Land(capacity, Touch(capacity, Land(capacity, s.order, k), j), k)
  {
    var a, s1 := Lands(capacity, isEntitled, s, k);
    var b, s2 := UsesOnce(capacity, isEntitled, s1, j);
    var c, s3 := Lands(capacity, isEntitled, s2, k);
    after, done := s3, [k, j, k];
    more := ChainThree(capacity, isEntitled, {k, j}, s, a, s1, k, b, s2, j, c, s3, k);
  }

  lemma {:induction false} WideDrift(capacity: nat, order: seq<Key>, uses: seq<Key>, k: Key, j: Key, all: seq<Key>)
    requires capacity > 0 && all == uses + [k, j, k] && j != k && order != [] && order[|order| - 1] == j
    ensures order != Last(Recency(all), capacity)
  {
    assert all == uses + [k, j] + [k];
    RecencyEnds(capacity, uses + [k, j], k);
  }

  lemma DoubledBreaksWide(capacity: nat, isEntitled: Key -> bool, s: State, uses: seq<Key>, k: Key, j: Key)
    requires capacity >= 3 && Doubled(capacity, isEntitled, s, k) && j != k
    ensures Breakable(capacity, isEntitled, s, uses, k, j)
  {
    var more, after, done := WideRun(capacity, isEntitled, s, k, j);
    var all := uses + done;
    LandingsApart(capacity, s.order, k, j);
    WideDrift(capacity, after.order, uses, k, j, all);
    BreaksBy(capacity, isEntitled, s, uses, k, j, more, after, done, all);
  }

  lemma {:induction false} NarrowDrift(uses: seq<Key>, k: Key, j: Key, all: seq<Key>)
    requires j != k && all == uses + [j, k, k]
    ensures Last(Recency(all), 2) != [k]
  {
    RecencyMeaning(all);
    assert all[|uses|] == j && all[|uses| + 1] == k;
    assert j in Recency(all) && k in Recency(all);
  }

  lemma NarrowRun(isEntitled: Key -> bool, s: State, k: Key, j: Key)
    returns (more: seq<Event>, after: State, done: seq<Key>)
    requires Doubled(2, isEntitled, s, k) && j != k
    ensures Runs(2, isEntitled, s, more, after, done) && UsesOnly({k, j}, more) && done == [j, k, k]
    ensures after.order == Land(2, Land(2, Touch(2, s.order, j), k), k)
  {
    var a, s1 := UsesOnce(2, isEntitled, s, j);
    var b, s2 := Lands(2, isEntitled, s1, k);
    var c, s3 := Lands(2, isEntitled, s2, k);
    after, done := s3, [j, k, k];
    more := ChainThree(2, isEntitled, {k, j}, s, a, s1, j, b, s2, k, c, s3, k);
  }

  lemma DoubledBreaksNarrow(isEntitled: Key -> bool, s: State, uses: seq<Key>, k: Key, j: Key)
    requires Doubled(2, isEntitled, s, k) && j != k
    ensures Breakable(2, isEntitled, s, uses, k, j)
  {
    var more, after, done := NarrowRun(isEntitled, s, k, j);
    var all := uses + done;
    LandingsTogether(s.order, k, j);
    NarrowDrift(uses, k, j, all);
    BreaksBy(2, isEntitled, s, uses, k, j, more, after, done, all);
  }

  /** With room for two, both landings after another key evict that key. */
  lemma LandingsTogether(order: seq<Key>, k: Key, j: Key)
    requires |order| <= 2 && NoDuplicates(order) && k !in order && j != k
    ensures Land(2, Land(2, Touch(2, order, j), k), k) == [k]
  {
    RemoveFacts(order, j);
    assert Land(2, Touch(2, order, j), k) == [j, k];
  }

  // ---------------------------------------------------------------- the discipline is exact

  /** The cache is in order after a run from the start. */
  ghost predicate OrderAfter(capacity: nat, isEntitled: Key -> bool, events: seq<Event>) {
    InOrder(capacity, Steps(capacity, isEntitled, EMPTY, events), Completed(capacity, isEntitled, EMPTY, events))
  }

  ghost predicate Continues(
      capacity: nat, isEntitled: Key -> bool, keys: set<Key>, events: seq<Event>, n: nat, more: seq<Event>)
  {
    && n <= |events| && UsesOnly(keys, more)
    && Disciplined(capacity, isEntitled, Steps(capacity, isEntitled, EMPTY, events[..n]), more)
  }

  /** From no point of the run do disciplined lookups of these keys lead to a cache that is out of order. */
  ghost predicate Robust(capacity: nat, isEntitled: Key -> bool, keys: set<Key>, events: seq<Event>) {
    forall n: nat, more: seq<Event> {:trigger Continues(capacity, isEntitled, keys, events, n, more)} ::
      Continues(capacity, isEntitled, keys, events, n, more) ==> OrderAfter(capacity, isEntitled, events[..n] + more)
  }

  ghost predicate OverlapsAt(capacity: nat, isEntitled: Key -> bool, events: seq<Event>, n: nat) {
    && n < |events| && Disciplined(capacity, isEntitled, EMPTY, events[..n]) && events[n].Lookup?
    && events[n].k in Steps(capacity, isEntitled, EMPTY, events[..n]).waiting
  }

  lemma {:induction false} FirstOverlap(capacity: nat, isEntitled: Key -> bool, events: seq<Event>) returns (n: nat)
    requires !Disciplined(capacity, isEntitled, EMPTY, events)
    ensures OverlapsAt(capacity, isEntitled, events, n)
    decreases |events|
  {
    var front := events[..|events| - 1];
    if Disciplined(capacity, isEntitled, EMPTY, front) {
      n := |front|;
      DisciplinedSnoc(capacity, isEntitled, EMPTY, events, front, events[n], Steps(capacity, isEntitled, EMPTY, front));
    } else {
      n := FirstOverlap(capacity, isEntitled, front);
      assert front[..n] == events[..n];
    }
  }

  /** What an overlapping lookup leaves behind. */
  lemma {:induction false} OverlapDoubles(capacity: nat, isEntitled: Key -> bool, events: seq<Event>, n: nat)
    requires capacity > 0 && OverlapsAt(capacity, isEntitled, events, n)
    ensures Doubled(capacity, isEntitled, Steps(capacity, isEntitled, EMPTY, events[..n + 1]), events[n].k)
  {
    var middle := Steps(capacity, isEntitled, EMPTY, events[..n]);
    var completed := Completed(capacity, isEntitled, EMPTY, events[..n]);
    assert [] + completed == completed;
    DisciplinedRun(capacity, isEntitled, EMPTY, [], events[..n], middle, completed);
    RunSnoc(capacity, isEntitled, EMPTY, events[..n + 1], events[..n], events[n], middle);
  }

  lemma DoubledBreaks(capacity: nat, isEntitled: Key -> bool, s: State, uses: seq<Key>, k: Key, j: Key)
    requires capacity >= 2 && Doubled(capacity, isEntitled, s, k) && j != k
    ensures Breakable(capacity, isEntitled, s, uses, k, j)
  {
    if capacity == 2 {
      DoubledBreaksNarrow(isEntitled, s, uses, k, j);
    } else {
      DoubledBreaksWide(capacity, isEntitled, s, uses, k, j);
    }
  }

  lemma {:induction false} OrderLost(
      capacity: nat, isEntitled: Key -> bool, run: seq<Event>, more: seq<Event>, s: State, uses: seq<Key>)
    requires s == Steps(capacity, isEntitled, EMPTY, run) && uses == Completed(capacity, isEntitled, EMPTY, run)
    requires Breaks(capacity, isEntitled, s, uses, more)
    ensures !OrderAfter(capacity, isEntitled, run + more)
  {
    StepsConcat(capacity, isEntitled, EMPTY, run, more);
    CompletedConcat(capacity, isEntitled, EMPTY, run, more);
  }

  lemma NotRobust(capacity: nat, isEntitled: Key -> bool, keys: set<Key>, events: seq<Event>, n: nat, more: seq<Event>)
    requires Continues(capacity, isEntitled, keys, events, n, more)
    requires !OrderAfter(capacity, isEntitled, events[..n] + more)
    ensures !Robust(capacity, isEntitled, keys, events)
  {}

  lemma BreakingRun(capacity: nat, isEntitled: Key -> bool, s: State, uses: seq<Key>, k: Key, j: Key, keys: set<Key>)
    returns (more: seq<Event>)
    requires Breakable(capacity, isEntitled, s, uses, k, j) && k in keys && j in keys
    ensures Breaks(capacity, isEntitled, s, uses, more) && UsesOnly(keys, more)
  {
    more :| Breaks(capacity, isEntitled, s, uses, more) && UsesOnly({k, j}, more);
  }

  lemma OverlapBreaks(capacity: nat, isEntitled: Key -> bool, keys: set<Key>, events: seq<Event>, n: nat)
    requires capacity >= 2 && |keys| >= 2 && UsesOnly(keys, events) && OverlapsAt(capacity, isEntitled, events, n)
    ensures !Robust(capacity, isEntitled, keys, events)
  {
    var k := events[n].k;
    var j := OtherKey(keys, k);
    var run := events[..n + 1];
    var s, uses := Steps(capacity, isEntitled, EMPTY, run), Completed(capacity, isEntitled, EMPTY, run);
    OverlapDoubles(capacity, isEntitled, events, n);
    DoubledBreaks(capacity, isEntitled, s, uses, k, j);
    var more := BreakingRun(capacity, isEntitled, s, uses, k, j, keys);
    OrderLost(capacity, isEntitled, run, more, s, uses);
    NotRobust(capacity, isEntitled, keys, events, n + 1, more);
  }

  lemma OtherKey(keys: set<Key>, k: Key) returns (j: Key)
    requires |keys| >= 2
    ensures j in keys && j != k
  {
    if keys - {k} == {} {
      assert keys <= {k};
      CardinalityOfSubset(keys, {k});
    }
    j :| j in keys - {k};
  }

  lemma OnePlaceHarmless(uses: seq<Key>, k: Key)
    ensures Harmless(1, uses, k)
  {
    assert |Last(Recency(uses), 1)| <= 1;
  }

  lemma OnePlaceStep(isEntitled: Key -> bool, s: State, uses: seq<Key>, e: Event)
    requires Sound(1, s.order, s.values, isEntitled) && InOrder(1, s, uses)
    ensures InOrder(1, Step(1, isEntitled, s, e), uses + Done(s, e))
  {
    OnePlaceHarmless(uses, e.k);
    StepInOrder(1, isEntitled, s, uses, e);
  }

  lemma OnePlaceMore(isEntitled: Key -> bool, events: seq<Event>, front: seq<Event>, e: Event)
    requires events == front + [e] && OrderAfter(1, isEntitled, front)
    ensures OrderAfter(1, isEntitled, events)
  {
    var middle := Steps(1, isEntitled, EMPTY, front);
    InterleavingsAreSound(1, isEntitled, EMPTY, front);
    RunSnoc(1, isEntitled, EMPTY, events, front, e, middle);
    OnePlaceStep(isEntitled, middle, Completed(1, isEntitled, EMPTY, front), e);
  }

  /** In a cache of one place the last completed key is always the one cached. */
  lemma {:induction false} OnePlace(isEntitled: Key -> bool, events: seq<Event>)
    ensures OrderAfter(1, isEntitled, events)
    decreases |events|
  {
    if events != [] {
      OnePlace(isEntitled, events[..|events| - 1]);
      OnePlaceMore(isEntitled, events, events[..|events| - 1], events[|events| - 1]);
    }
  }

  /**
   * The discipline is exact: no point of a run can be led out of order by disciplined lookups if and only if
   * the run never looks a key up while a miss on it is suspended, or the cache has a single place.
   */
  lemma {:induction false} DisciplineIsExact(capacity: nat, isEntitled: Key -> bool, keys: set<Key>, events: seq<Event>)
    requires capacity > 0 && |keys| >= 2 && UsesOnly(keys, events)
    ensures Robust(capacity, isEntitled, keys, events) <==>
            Disciplined(capacity, isEntitled, EMPTY, events) || capacity == 1
  {
    if capacity == 1 {
      forall n: nat, more: seq<Event> | Continues(capacity, isEntitled, keys, events, n, more)
        ensures OrderAfter(capacity, isEntitled, events[..n] + more)
      {
        OnePlace(isEntitled, events[..n] + more);
      }
    } else if Disciplined(capacity, isEntitled, EMPTY, events) {
      forall n: nat, more: seq<Event> | Continues(capacity, isEntitled, keys, events, n, more)
        ensures OrderAfter(capacity, isEntitled, events[..n] + more)
      {
        assert events[..n] + events[n..] == events;
        DisciplinedConcat(capacity, isEntitled, EMPTY, events[..n], events[n..]);
        DisciplinedConcat(capacity, isEntitled, EMPTY, events[..n], more);
        DisciplinedRunsKeepRecency(capacity, isEntitled, events[..n] + more);
      }
    } else {
      var n := FirstOverlap(capacity, isEntitled, events);
      OverlapBreaks(capacity, isEntitled, keys, events, n);
    }
  }

  // ---------------------------------------------------------------- losing a cached answer

  lemma {:induction false} DistinctCount(keys: seq<Key>, all: set<Key>)
    requires NoDuplicates(keys) && forall k :: k in keys ==> k in all
    ensures |keys| <= |all|
    decreases |keys|
  {
    if keys != [] {
      assert keys == [keys[0]] + keys[1..];
      NoDuplicatesCons(keys[0], keys[1..]);
      DistinctCount(keys[1..], all - {keys[0]});
    }
  }

  /** Room for all keys and one more, or no second key to evict. */
  predicate Roomy(capacity: nat, all: set<Key>) {
    |all| < capacity || |all| <= 1
  }

  lemma SingleKey(all: set<Key>, k: Key, j: Key)
    requires |all| <= 1 && k in all && j in all
    ensures k == j
  {
    CardinalityOfSubset({k, j}, all);
  }

  /** Where there is room, a full cache evicts nothing but the key that lands. */
  lemma LandKeepsCached(capacity: nat, all: set<Key>, order: seq<Key>, k: Key)
    requires capacity > 0 && Roomy(capacity, all) && |order| <= capacity && NoDuplicates(order)
    requires k in all && forall j :: j in order ==> j in all
    ensures forall j :: j in Land(capacity, order, k) <==> j == k || j in order
  {
    LandFacts(capacity, order, k);
    DistinctCount(order, all);
    if |order| == capacity {
      SingleKey(all, order[0], k);
    }
  }

  lemma StepKeepsCached(capacity: nat, isEntitled: Key -> bool, all: set<Key>, s: State, e: Event)
    requires Roomy(capacity, all) && Sound(capacity, s.order, s.values, isEntitled) && e.k in all
    requires forall k :: k in s.order ==> k in all
    ensures var s' := Step(capacity, isEntitled, s, e);
            && (forall k :: k in s'.order ==> k in all)
            && (forall k :: k in s.order || k in Done(s, e) ==> k in s'.order)
  {
    match e
    case Lookup(k) => RemoveFacts(s.order, k);
    case Resume(k) => LandKeepsCached(capacity, all, s.order, k);
    case Cancel(_) =>
  }

  lemma {:induction false} RunKeepsCached(capacity: nat, isEntitled: Key -> bool, all: set<Key>, events: seq<Event>)
    requires capacity > 0 && Roomy(capacity, all) && UsesOnly(all, events)
    ensures var s := Steps(capacity, isEntitled, EMPTY, events);
            && (forall k :: k in s.order ==> k in all)
            && (forall k :: k in Completed(capacity, isEntitled, EMPTY, events) ==> k in s.order)
    decreases |events|
  {
    if events != [] {
      var front, e := events[..|events| - 1], events[|events| - 1];
      var middle := Steps(capacity, isEntitled, EMPTY, front);
      RunKeepsCached(capacity, isEntitled, all, front);
      InterleavingsAreSound(capacity, isEntitled, EMPTY, front);
      RunSnoc(capacity, isEntitled, EMPTY, events, front, e, middle);
      StepKeepsCached(capacity, isEntitled, all, middle, e);
    }
  }

  /** Look each key up in turn, with nothing in between. */
  function LookupEach(keys: seq<Key>): seq<Event> {
    if keys == [] then []
    else LookupEach(keys[..|keys| - 1]) + ([Lookup(keys[|keys| - 1])] + [Resume(keys[|keys| - 1])])
  }

  /** A run that used each of some keys once, in the order in which they are cached, with nothing suspended. */
  ghost predicate Filled(capacity: nat, isEntitled: Key -> bool, events: seq<Event>, after: State, keys: seq<Key>) {
    && Goes(capacity, isEntitled, EMPTY, events, after, keys)
    && after.order == keys && after.waiting == multiset{} && Sound(capacity, after.order, after.values, isEntitled)
  }

  lemma OneMoreFilled(
      capacity: nat, isEntitled: Key -> bool, events: seq<Event>, middle: State, front: seq<Key>, k: Key)
    returns (after: State)
    requires Filled(capacity, isEntitled, events, middle, front) && k !in front && |front| < capacity
    ensures Filled(capacity, isEntitled, events + ([Lookup(k)] + [Resume(k)]), after, front + [k])
  {
    var more := [Lookup(k)] + [Resume(k)];
    after := MissesAndLands(capacity, isEntitled, middle, k);
    GoesOn(capacity, isEntitled, EMPTY, events, middle, front, more, after, [k], events + more, front + [k]);
  }

  lemma {:induction false} LookupEachFills(
      capacity: nat, isEntitled: Key -> bool, keys: seq<Key>) returns (after: State)
    requires capacity > 0 && NoDuplicates(keys) && |keys| <= capacity
    ensures Filled(capacity, isEntitled, LookupEach(keys), after, keys)
    decreases |keys|
  {
    if keys == [] {
      after := EMPTY;
    } else {
      var front, k := keys[..|keys| - 1], keys[|keys| - 1];
      assert keys == front + [k] && k !in front;
      var middle := LookupEachFills(capacity, isEntitled, front);
      after := OneMoreFilled(capacity, isEntitled, LookupEach(front), middle, front, k);
    }
  }

  lemma {:induction false} LookupEachUses(keys: seq<Key>, all: set<Key>)
    requires forall k :: k in keys ==> k in all
    ensures UsesOnly(all, LookupEach(keys))
    decreases |keys|
  {
    if keys != [] {
      LookupEachUses(keys[..|keys| - 1], all);
    }
  }

  /** Two lookups of one key that both miss before either lands. */
  function DoubleMiss(k: Key): seq<Event> {
    [Lookup(k)] + [Lookup(k)] + ([Resume(k)] + [Resume(k)])
  }

  lemma MissesTwice(capacity: nat, isEntitled: Key -> bool, s: State, k: Key) returns (after: State)
    requires k !in s.values
    ensures Goes(capacity, isEntitled, s, [Lookup(k)] + [Lookup(k)], after, [])
    ensures after.order == s.order && after.values == s.values && after.waiting[k] >= 2
  {
    var middle := Step(capacity, isEntitled, s, Lookup(k));
    after := Step(capacity, isEntitled, middle, Lookup(k));
    TwoSteps(capacity, isEntitled, s, Lookup(k), middle, Lookup(k), after, [], [], []);
  }

  lemma DoubleMissLands(capacity: nat, isEntitled: Key -> bool, s: State, k: Key) returns (after: State)
    requires Sound(capacity, s.order, s.values, isEntitled) && k !in s.values
    ensures after.order == Land(capacity, Land(capacity, s.order, k), k)
    ensures Goes(capacity, isEntitled, s, DoubleMiss(k), after, [k, k])
  {
    var middle := MissesTwice(capacity, isEntitled, s, k);
    after := LandsTwice(capacity, isEntitled, middle, k);
    GoesOn(capacity, isEntitled, s, [Lookup(k)] + [Lookup(k)], middle, [], [Resume(k)] + [Resume(k)], after, [k, k],
           DoubleMiss(k), [k, k]);
  }

  lemma LandsTwice(capacity: nat, isEntitled: Key -> bool, s: State, k: Key) returns (after: State)
    requires Sound(capacity, s.order, s.values, isEntitled) && s.waiting[k] >= 2
    ensures after.order == Land(capacity, Land(capacity, s.order, k), k)
    ensures Goes(capacity, isEntitled, s, [Resume(k)] + [Resume(k)], after, [k, k])
  {
    var middle := Step(capacity, isEntitled, s, Resume(k));
    after := Step(capacity, isEntitled, middle, Resume(k));
    TwoSteps(capacity, isEntitled, s, Resume(k), middle, Resume(k), after, [k], [k], [k, k]);
  }

  lemma {:induction false} RecencyOfDistinct(keys: seq<Key>)
    requires NoDuplicates(keys)
    ensures Recency(keys) == keys
  {
    if keys != [] {
      var front, k := keys[..|keys| - 1], keys[|keys| - 1];
      RecencyOfDistinct(front);
      RemoveFacts(front, k);
      assert keys == front + [k];
    }
  }

  /** Using the last key of a list again leaves its recency as it is. */
  lemma {:induction false} RecencyOfRepeat(keys: seq<Key>, front: seq<Key>, k: Key)
    requires NoDuplicates(keys) && keys == front + [k]
    ensures Recency(keys + [k]) == keys
  {
    RecencyOfDistinct(keys);
    RecencySnoc(1, keys, k, Last(Recency(keys), 1));
    RemovePrefix(front, [k], k);
    assert front + [] == front;
  }

  lemma FrontDistinct(keys: seq<Key>, front: seq<Key>, k: Key)
    requires NoDuplicates(keys) && keys == front + [k]
    ensures NoDuplicates(front) && k !in front
  {
    assert keys[|front|] == k && forall i :: 0 <= i < |front| ==> front[i] == keys[i];
  }

  lemma DoubleLanding(capacity: nat, keys: seq<Key>, front: seq<Key>, k: Key)
    requires capacity >= 2 && |keys| == capacity && NoDuplicates(keys) && keys == front + [k]
    ensures Land(capacity, Land(capacity, front, k), k) == keys[1..]
  {
    assert keys[capacity - 1] == k && forall i :: 0 <= i < |front| ==> front[i] == keys[i];
    assert k !in front && Land(capacity, front, k) == keys;
    assert keys[1..][capacity - 2] == k;
  }

  lemma {:induction false} DoubleMissRun(
      capacity: nat, isEntitled: Key -> bool, keys: seq<Key>, front: seq<Key>, k: Key)
    requires capacity >= 2 && |keys| == capacity && NoDuplicates(keys) && keys == front + [k]
    ensures Steps(capacity, isEntitled, EMPTY, LookupEach(front) + DoubleMiss(k)).order == keys[1..]
    ensures Completed(capacity, isEntitled, EMPTY, LookupEach(front) + DoubleMiss(k)) == keys + [k]
  {
    FrontDistinct(keys, front, k);
    var s := LookupEachFills(capacity, isEntitled, front);
    var after := DoubleMissLands(capacity, isEntitled, s, k);
    DoubleLanding(capacity, keys, front, k);
    GoesOn(capacity, isEntitled, EMPTY, LookupEach(front), s, front, DoubleMiss(k), after, [k, k],
           LookupEach(front) + DoubleMiss(k), keys + [k]);
  }

  /**
   * In a cache of any size from two on: with as many keys as places, each used once and the last one missed
   * twice, the first key is gone, though all of them are among the most recently used that fit.
   */
  lemma DoubleMissEvicts(capacity: nat, isEntitled: Key -> bool, keys: seq<Key>)
    requires capacity >= 2 && |keys| == capacity && NoDuplicates(keys)
    ensures var events := LookupEach(keys[..capacity - 1]) + DoubleMiss(keys[capacity - 1]);
            && Steps(capacity, isEntitled, EMPTY, events).order == keys[1..]
            && Completed(capacity, isEntitled, EMPTY, events) == keys + [keys[capacity - 1]]
    ensures Last(Recency(keys + [keys[capacity - 1]]), capacity) == keys
  {
    var front, k := keys[..capacity - 1], keys[capacity - 1];
    assert keys == front + [k];
    DoubleMissRun(capacity, isEntitled, keys, front, k);
    RecencyOfRepeat(keys, front, k);
  }

  /** No run on these keys ever loses the answer of a completed lookup. */
  ghost predicate NeverLoses(capacity: nat, isEntitled: Key -> bool, all: set<Key>) {
    forall events: seq<Event> {:trigger UsesOnly(all, events)} :: UsesOnly(all, events) ==>
      forall k :: k in Completed(capacity, isEntitled, EMPTY, events) ==> k in Steps(capacity, isEntitled, EMPTY, events).order
  }

  lemma {:induction false} Enumerated(all: set<Key>, n: nat) returns (keys: seq<Key>)
    requires n <= |all|
    ensures |keys| == n && NoDuplicates(keys) && forall k :: k in keys ==> k in all
    decreases n
  {
    if n == 0 {
      keys := [];
    } else {
      assert all != {};
      var k: Key :| k in all;
      var rest := Enumerated(all - {k}, n - 1);
      keys := [k] + rest;
      NoDuplicatesCons(k, rest);
    }
  }

  /** A run that completed a lookup whose key is not cached at its end. */
  lemma {:induction false} Loses(capacity: nat, isEntitled: Key -> bool, all: set<Key>, events: seq<Event>, k: Key)
    requires UsesOnly(all, events) && k in Completed(capacity, isEntitled, EMPTY, events)
    requires k !in Steps(capacity, isEntitled, EMPTY, events).order
    ensures !NeverLoses(capacity, isEntitled, all)
  {}

  /** In a cache of one place the second key evicts the first. */
  lemma OnePlaceLoses(isEntitled: Key -> bool, all: set<Key>)
    requires |all| >= 2
    ensures !NeverLoses(1, isEntitled, all)
  {
    var keys := Enumerated(all, 2);
    var a, b := keys[0], keys[1];
    var s := MissesAndLands(1, isEntitled, EMPTY, a);
    assert s.order == [a] && b !in [a];
    var after := MissesAndLands(1, isEntitled, s, b);
    var once, again := [Lookup(a)] + [Resume(a)], [Lookup(b)] + [Resume(b)];
    Chain(1, isEntitled, EMPTY, once, s, [a], again, after, [b], once + again, [a, b]);
    assert after.order == [b] && [a, b][0] == a;
    Loses(1, isEntitled, all, once + again, a);
  }

  lemma {:induction false} DoubleMissUses(front: seq<Key>, k: Key, all: set<Key>)
    requires k in all && forall j :: j in front ==> j in all
    ensures UsesOnly(all, LookupEach(front) + DoubleMiss(k))
  {
    LookupEachUses(front, all);
  }

  lemma FirstOfDistinct(keys: seq<Key>)
    requires NoDuplicates(keys) && keys != []
    ensures keys[0] !in keys[1..]
  {
    assert keys == [keys[0]] + keys[1..];
    NoDuplicatesCons(keys[0], keys[1..]);
  }

  lemma DoubleMissLoses(capacity: nat, isEntitled: Key -> bool, all: set<Key>)
    requires 2 <= capacity <= |all|
    ensures !NeverLoses(capacity, isEntitled, all)
  {
    var keys := Enumerated(all, capacity);
    var front, k := keys[..capacity - 1], keys[capacity - 1];
    DoubleMissEvicts(capacity, isEntitled, keys);
    DoubleMissUses(front, k, all);
    FirstOfDistinct(keys);
    assert (keys + [k])[0] == keys[0];
    Loses(capacity, isEntitled, all, LookupEach(front) + DoubleMiss(k), keys[0]);
  }

  /**
   * Whatever is suspended, resumed and cancelled, no completed answer is ever evicted if and only if there are
   * fewer keys than places, or at most one key. With as many keys as places, a double miss can evict.
   */
  lemma NeverLosesExactly(capacity: nat, isEntitled: Key -> bool, all: set<Key>)
    requires capacity > 0
    ensures NeverLoses(capacity, isEntitled, all) <==> Roomy(capacity, all)
  {
    if Roomy(capacity, all) {
      forall events: seq<Event> | UsesOnly(all, events)
        ensures forall k :: k in Completed(capacity, isEntitled, EMPTY, events) ==>
                  k in Steps(capacity, isEntitled, EMPTY, events).order
      {
        RunKeepsCached(capacity, isEntitled, all, events);
      }
    } else if capacity == 1 {
      OnePlaceLoses(isEntitled, all);
    } else {
      DoubleMissLoses(capacity, isEntitled, all);
    }
  }

  // ---------------------------------------------------------------- the service as it is

  /** With eight entitlements and 32 places nothing is ever evicted; only the order of use can drift. */
  lemma {:induction false} ServiceNeverEvicts(isEntitled: Key -> bool, events: seq<Event>, k: Key)
    requires UsesOnly({0, 1, 2, 3, 4, 5, 6, 7}, events)
    ensures k in Steps(32, isEntitled, EMPTY, events).order <==> k in Completed(32, isEntitled, EMPTY, events)
  {
    RunKeepsCached(32, isEntitled, {0, 1, 2, 3, 4, 5, 6, 7}, events);
    CachedWasCompleted(32, isEntitled, events);
  }

  lemma {:induction false} CachedWasCompleted(capacity: nat, isEntitled: Key -> bool, events: seq<Event>)
    requires capacity > 0
    ensures forall k :: k in Steps(capacity, isEntitled, EMPTY, events).order ==>
              k in Completed(capacity, isEntitled, EMPTY, events)
    decreases |events|
  {
    if events != [] {
      var front, e := events[..|events| - 1], events[|events| - 1];
      var middle := Steps(capacity, isEntitled, EMPTY, front);
      CachedWasCompleted(capacity, isEntitled, front);
      InterleavingsAreSound(capacity, isEntitled, EMPTY, front);
      RunSnoc(capacity, isEntitled, EMPTY, events, front, e, middle);
      RemoveFacts(middle.order, e.k);
      LandFacts(capacity, middle.order, e.k);
    }
  }
}
