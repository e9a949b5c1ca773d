/** The per-service LRU cache of entitlement answers (`tracecat/service.py`). */
module EntitlementCache {
  import opened Wrappers

  /** Entitlements are the members of an enumeration, numbered by declaration. */
  type Key = nat

  function Remove(keys: seq<Key>, k: Key): seq<Key> {
    if keys == [] then []
    else if keys[0] == k then keys[1..]
    else [keys[0]] + Remove(keys[1..], k)
  }

  /** `move_to_end` */
  function MoveToEnd(keys: seq<Key>, k: Key): seq<Key> {
    Remove(keys, k) + [k]
  }

  /** `popitem(last=False)` when the cache is full. */
  function Trim(keys: seq<Key>, capacity: nat): seq<Key> {
    if |keys| >= capacity && keys != [] then keys[1..] else keys
  }

  ghost predicate NoDuplicates(keys: seq<Key>) {
    forall i, j :: 0 <= i < j < |keys| ==> keys[i] != keys[j]
  }

  // ---------------------------------------------------------------- reference definition

  /** The different keys of a history of lookups, least recently used first. */
  function Recency(history: seq<Key>): seq<Key> {
    if history == [] then [] else MoveToEnd(Recency(history[..|history| - 1]), history[|history| - 1])
  }

  function Last(keys: seq<Key>, n: nat): seq<Key> {
    if |keys| <= n then keys else keys[|keys| - n..]
  }

  /** Position of the last use of a key that occurs in the history. */
  function LastUse(history: seq<Key>, k: Key): nat
    requires k in history
  {
    if history[|history| - 1] == k then |history| - 1 else LastUse(history[..|history| - 1], k)
  }

  lemma NoDuplicatesCons(x: Key, rest: seq<Key>)
    ensures NoDuplicates([x] + rest) <==> x !in rest && NoDuplicates(rest)
  {
    var keys := [x] + rest;
    assert forall i :: 0 <= i < |rest| ==> keys[i + 1] == rest[i];
    if NoDuplicates(keys) {
      forall i, j | 0 <= i < j < |rest| ensures rest[i] != rest[j] {
        assert keys[i + 1] != keys[j + 1];
      }
      forall i | 0 <= i < |rest| ensures rest[i] != x {
        assert keys[0] != keys[i + 1];
      }
    }
  }

  lemma {:induction false} RemoveFacts(keys: seq<Key>, k: Key)
    requires NoDuplicates(keys)
    ensures NoDuplicates(Remove(keys, k)) && k !in Remove(keys, k)
    ensures forall x :: x in Remove(keys, k) <==> x in keys && x != k
    ensures |Remove(keys, k)| == if k in keys then |keys| - 1 else |keys|
    ensures k !in keys ==> Remove(keys, k) == keys
  {
    if keys != [] {
      assert keys == [keys[0]] + keys[1..];
      NoDuplicatesCons(keys[0], keys[1..]);
      if keys[0] != k {
        RemoveFacts(keys[1..], k);
        NoDuplicatesCons(keys[0], Remove(keys[1..], k));
      }
    }
  }

  /** Removing keeps the relative order of what stays. */
  lemma {:induction false} RemoveOrder(keys: seq<Key>, k: Key, i: nat, j: nat)
    requires i < j < |Remove(keys, k)|
    ensures exists a, b :: 0 <= a < b < |keys| && keys[a] == Remove(keys, k)[i] && keys[b] == Remove(keys, k)[j]
  {
    if keys[0] == k {
      assert keys[i + 1] == Remove(keys, k)[i] && keys[j + 1] == Remove(keys, k)[j];
    } else if i > 0 {
      RemoveOrder(keys[1..], k, i - 1, j - 1);
      var a, b :| 0 <= a < b < |keys[1..]| &&
          keys[1..][a] == Remove(keys[1..], k)[i - 1] && keys[1..][b] == Remove(keys[1..], k)[j - 1];
      assert keys[a + 1] == Remove(keys, k)[i] && keys[b + 1] == Remove(keys, k)[j];
    } else {
      RemoveMember(keys[1..], k, j - 1);
      var b :| 0 <= b < |keys[1..]| && keys[1..][b] == Remove(keys[1..], k)[j - 1];
      assert keys[0] == Remove(keys, k)[0] && keys[b + 1] == Remove(keys, k)[j];
    }
  }

  lemma {:induction false} RemoveMember(keys: seq<Key>, k: Key, i: nat)
    requires i < |Remove(keys, k)|
    ensures Remove(keys, k)[i] in keys
  {
    if keys[0] != k && i > 0 {
      RemoveMember(keys[1..], k, i - 1);
    }
  }

  /** `Recency` lists exactly the keys used, each once, by increasing position of last use. */
  lemma {:induction false} RecencyMeaning(history: seq<Key>)
    ensures NoDuplicates(Recency(history))
    ensures forall k :: k in Recency(history) <==> k in history
    ensures forall i, j :: 0 <= i < j < |Recency(history)| ==>
              LastUse(history, Recency(history)[i]) < LastUse(history, Recency(history)[j])
  {
    if history != [] {
      var front, k := history[..|history| - 1], history[|history| - 1];
      var prior := Recency(front);
      RecencyMeaning(front);
      RemoveFacts(prior, k);
      assert history == front + [k];
      forall i, j | 0 <= i < j < |Recency(history)|
        ensures LastUse(history, Recency(history)[i]) < LastUse(history, Recency(history)[j])
      {
        LastUseBound(front, Recency(history)[i]);
        if j < |Recency(history)| - 1 {
          RemoveOrder(prior, k, i, j);
        }
      }
    }
  }

  lemma {:induction false} LastUseBound(history: seq<Key>, k: Key)
    ensures k in history ==> LastUse(history, k) < |history|
  {
    if k in history && history[|history| - 1] != k {
      LastUseBound(history[..|history| - 1], k);
    }
  }

  // ---------------------------------------------------------------- one lookup at a time

  /** The effect of one completed lookup on the order of cached keys. */
  function Touch(capacity: nat, order: seq<Key>, k: Key): seq<Key> {
    if k in order then MoveToEnd(order, k) else Trim(order, capacity) + [k]
  }

  function Run(capacity: nat, history: seq<Key>): seq<Key> {
    if history == [] then []
    else Touch(capacity, Run(capacity, history[..|history| - 1]), history[|history| - 1])
  }

  lemma {:induction false} RemovePrefix(a: seq<Key>, b: seq<Key>, k: Key)
    requires k !in a
    ensures Remove(a + b, k) == a + Remove(b, k)
  {
    if a == [] {
      assert a + b == b;
    } else {
      assert (a + b)[1..] == a[1..] + b;
      RemovePrefix(a[1..], b, k);
    }
  }

  lemma LastOfConcat(a: seq<Key>, b: seq<Key>, n: nat)
    requires |b| >= n
    ensures Last(a + b, n) == Last(b, n)
  {}

  lemma TouchCached(capacity: nat, a: seq<Key>, b: seq<Key>, k: Key)
    requires |b| == capacity && k in b && k !in a && NoDuplicates(b)
    ensures Touch(capacity, b, k) == Last(MoveToEnd(a + b, k), capacity)
  {
    RemoveFacts(b, k);
    RemovePrefix(a, b, k);
    assert MoveToEnd(a + b, k) == a + MoveToEnd(b, k);
    LastOfConcat(a, MoveToEnd(b, k), capacity);
  }

  lemma TouchEvicted(capacity: nat, a: seq<Key>, b: seq<Key>, k: Key)
    requires |b| == capacity > 0 && k !in b
    ensures Touch(capacity, b, k) == Last(MoveToEnd(a + b, k), capacity)
  {
    RemoveSuffix(a, b, k);
    assert MoveToEnd(a + b, k) == Remove(a, k) + (b + [k]);
    LastOfConcat(Remove(a, k), b + [k], capacity);
  }

  /** Touching the last n of a recency list is taking the last n of the touched list. */
  lemma TouchLast(capacity: nat, keys: seq<Key>, k: Key)
    requires capacity > 0 && NoDuplicates(keys)
    ensures Touch(capacity, Last(keys, capacity), k) == Last(MoveToEnd(keys, k), capacity)
  {
    if |keys| <= capacity {
      RemoveFacts(keys, k);
    } else {
      var a, b := keys[..|keys| - capacity], keys[|keys| - capacity..];
      assert keys == a + b;
      if k in b {
        TouchCached(capacity, a, b, k);
      } else {
        TouchEvicted(capacity, a, b, k);
      }
    }
  }

  lemma {:induction false} RemoveSuffix(a: seq<Key>, b: seq<Key>, k: Key)
    requires k !in b
    ensures Remove(a + b, k) == Remove(a, k) + b
  {
    if a == [] {
      RemovePrefix(b, [], k);
      assert a + b == b == b + [];
    } else {
      assert (a + b)[1..] == a[1..] + b;
      if a[0] != k {
        RemoveSuffix(a[1..], b, k);
      }
    }
  }

  /** After any lookups the cache holds exactly the most recently used keys, oldest first. */
  lemma {:induction false} HoldsMostRecent(capacity: nat, history: seq<Key>)
    requires capacity > 0
    ensures Run(capacity, history) == Last(Recency(history), capacity)
    ensures |Run(capacity, history)| <= capacity
  {
    if history != [] {
      HoldsMostRecent(capacity, history[..|history| - 1]);
      RecencyMeaning(history[..|history| - 1]);
      TouchLast(capacity, Recency(history[..|history| - 1]), history[|history| - 1]);
    }
  }

  /** A smaller cache is always a suffix of a larger one. */
  lemma {:induction false} SmallerIsSuffix(small: nat, large: nat, history: seq<Key>)
    requires 0 < small <= large
    ensures var s, l := Run(small, history), Run(large, history);
            |s| <= |l| && l[|l| - |s|..] == s
  {
    var keys, s, l := Recency(history), Run(small, history), Run(large, history);
    assert s == Last(keys, small) by {
      HoldsMostRecent(small, history);
    }
    assert l == Last(keys, large) by {
      HoldsMostRecent(large, history);
    }
    LastOfLast(keys, small, large, s, l);
  }

  lemma LastOfLast(keys: seq<Key>, small: nat, large: nat, s: seq<Key>, l: seq<Key>)
    requires small <= large && s == Last(keys, small) && l == Last(keys, large)
    ensures |s| <= |l| && l[|l| - |s|..] == s
  {}

  // ---------------------------------------------------------------- suspended lookups

  /** The effect of a suspended miss landing: evict when full, then store without reordering. */
  function Land(capacity: nat, order: seq<Key>, k: Key): seq<Key> {
    var kept := Trim(order, capacity);
    if k in kept then kept else kept + [k]
  }

  /** The key, if any, that gives way when a miss lands. */
  function Evicted(keys: seq<Key>, capacity: nat): set<Key> {
    if |keys| >= capacity && keys != [] then {keys[0]} else {}
  }

  datatype Event = Lookup(k: Key) | Resume(k: Key) | Cancel(k: Key)

  datatype State = State(order: seq<Key>, values: map<Key, bool>, waiting: multiset<Key>)

  /** One step of the event loop on the cache; an event that cannot happen changes nothing. */
  function Step(capacity: nat, isEntitled: Key -> bool, s: State, e: Event): State {
    match e
    case Lookup(k) =>
      if k in s.values then s.(order := MoveToEnd(s.order, k)) else s.(waiting := s.waiting + multiset{k})
    case Resume(k) =>
      if k !in s.waiting then s
      else
        State(Land(capacity, s.order, k), (s.values - Evicted(s.order, capacity))[k := isEntitled(k)],
              s.waiting - multiset{k})
    case Cancel(k) => s.(waiting := s.waiting - multiset{k})
  }

  // ---------------------------------------------------------------- the service object

  /** What the cache may hold: bounded, without repeats, and only true answers. */
  ghost predicate Sound(capacity: nat, order: seq<Key>, values: map<Key, bool>, isEntitled: Key -> bool) {
    && capacity > 0 && |order| <= capacity && NoDuplicates(order)
    && (forall k :: k in values <==> k in order)
    && (forall k :: k in values ==> values[k] == isEntitled(k))
  }

  class OrgService {
    const capacity: nat
    const isEntitled: Key -> bool
    var order: seq<Key>
    var values: map<Key, bool>
    /** Lookups that missed and are suspended at the `await`. */
    var waiting: multiset<Key>

    ghost predicate Valid()
      reads this
    {
      Sound(capacity, order, values, isEntitled)
    }

    ghost function Cache(): State
      reads this
    {
      State(order, values, waiting)
    }

    constructor (capacity: nat, isEntitled: Key -> bool)
      requires capacity > 0
      ensures Valid() && Cache() == EMPTY
      ensures this.capacity == capacity && this.isEntitled == isEntitled
    {
      this.capacity, this.isEntitled := capacity, isEntitled;
      order, values, waiting := [], map[], multiset{};
    }

    /** The part of a lookup before the `await`. */
    method Begin(k: Key) returns (answer: Option<bool>)
      requires Valid()
      modifies this`order, this`waiting
      ensures Valid()
      ensures answer == if k in old(order) then Some(isEntitled(k)) else None
      ensures Cache() == Step(capacity, isEntitled, old(Cache()), Lookup(k))
    {
      if k in values {
        RemoveFacts(order, k);
        order := MoveToEnd(order, k);
        return Some(values[k]);
      }
      waiting := waiting + multiset{k};
      return None;
    }

    /** The part of a missed lookup after the `await`; other lookups may have run in between. */
    method Finish(k: Key) returns (answer: bool)
      requires Valid() && k in waiting
      modifies this
      ensures Valid()
      ensures answer == isEntitled(k)
      ensures Cache() == Step(capacity, isEntitled, old(Cache()), Resume(k))
    {
      answer := isEntitled(k);
      waiting := waiting - multiset{k};
      EvictWhenFull();
      Store(k, answer);
    }

    /** `popitem(last=False)` where the cache is full. */
    method EvictWhenFull()
      requires Valid()
      modifies this`order, this`values
      ensures Valid() && |order| < capacity
      ensures order == Trim(old(order), capacity) && values == old(values) - Evicted(old(order), capacity)
    {
      if |order| >= capacity {
        assert order == [order[0]] + order[1..];
        NoDuplicatesCons(order[0], order[1..]);
        values := values - {order[0]};
        order := order[1..];
      }
    }

    /** `cache[k] = answer`, which does not move a key that is already there. */
    method Store(k: Key, answer: bool)
      requires Valid() && |order| < capacity && answer == isEntitled(k)
      modifies this`order, this`values
      ensures Valid() && values == old(values)[k := answer]
      ensures order == if k in old(order) then old(order) else old(order) + [k]
    {
      if k !in values {
        order := order + [k];
      }
      values := values[k := answer];
    }

    /** A lookup whose miss is answered before anything else runs. */
    method HasEntitlement(k: Key) returns (answer: bool)
      requires Valid()
      modifies this
      ensures Valid()
      ensures answer == isEntitled(k)
      ensures order == Touch(capacity, old(order), k) && waiting == old(waiting)
    {
      var hit := Begin(k);
      if hit.Some? {
        return hit.value;
      }
      answer := Finish(k);
    }
  }

  // ---------------------------------------------------------------- interleaved lookups

  /**
   * A landing miss leaves the most recently completed keys in order exactly when its key is not
   * cached yet, or sits where eviction or the tail makes up for the missing `move_to_end`.
   */
  lemma {:induction false} LandKeepsRecency(capacity: nat, uses: seq<Key>, k: Key)
    requires capacity > 0
    ensures var order := Last(Recency(uses), capacity);
            Land(capacity, order, k) == Last(Recency(uses + [k]), capacity) <==>
            k !in order || (if |order| == capacity then order[0] == k else order[|order| - 1] == k)
  {
    var order := Last(Recency(uses), capacity);
    RecencySnoc(capacity, uses, k, order);
    LandIsTouch(capacity, order, k);
  }

  /** One more use touches the recency list, and the last of it that fit. */
  lemma {:induction false} RecencySnoc(capacity: nat, uses: seq<Key>, k: Key, order: seq<Key>)
    requires capacity > 0 && order == Last(Recency(uses), capacity)
    ensures Recency(uses + [k]) == MoveToEnd(Recency(uses), k)
    ensures |order| <= capacity && NoDuplicates(order)
    ensures Last(Recency(uses + [k]), capacity) == Touch(capacity, order, k)
  {
    assert (uses + [k])[..|uses|] == uses;
    assert NoDuplicates(Recency(uses)) by {
      RecencyMeaning(uses);
    }
    TouchLast(capacity, Recency(uses), k);
  }

  lemma LandIsTouch(capacity: nat, order: seq<Key>, k: Key)
    requires capacity > 0 && |order| <= capacity && NoDuplicates(order)
    ensures Land(capacity, order, k) == Touch(capacity, order, k) <==>
            k !in order || (if |order| == capacity then order[0] == k else order[|order| - 1] == k)
  {
    if k in order {
      RemoveFacts(order, k);
      if |order| == capacity {
        assert order[0] != k ==> k in order[1..];
      } else if order[|order| - 1] == k {
        var front := order[..|order| - 1];
        RemovePrefix(front, [k], k);
        assert order == front + [k];
      }
    }
  }

  function Steps(capacity: nat, isEntitled: Key -> bool, s: State, events: seq<Event>): State
    decreases |events|
  {
    if events == [] then s else Steps(capacity, isEntitled, Step(capacity, isEntitled, s, events[0]), events[1..])
  }

  const EMPTY := State([], map[], multiset{})

  /** Whatever lookups are suspended, resumed and cancelled, the cache stays bounded and truthful. */
  lemma {:induction false} InterleavingsAreSound(capacity: nat, isEntitled: Key -> bool, s: State, events: seq<Event>)
    requires Sound(capacity, s.order, s.values, isEntitled)
    ensures var s' := Steps(capacity, isEntitled, s, events);
            Sound(capacity, s'.order, s'.values, isEntitled)
    decreases |events|
  {
    if events != [] {
      StepIsSound(capacity, isEntitled, s, events[0]);
      InterleavingsAreSound(capacity, isEntitled, Step(capacity, isEntitled, s, events[0]), events[1..]);
    }
  }

  lemma StepIsSound(capacity: nat, isEntitled: Key -> bool, s: State, e: Event)
    requires Sound(capacity, s.order, s.values, isEntitled)
    ensures var s' := Step(capacity, isEntitled, s, e);
            Sound(capacity, s'.order, s'.values, isEntitled)
  {
    match e
    case Lookup(k) => RemoveFacts(s.order, k);
    case Resume(k) => LandIsSound(capacity, isEntitled, s, k, Land(capacity, s.order, k));
    case Cancel(_) =>
  }

  lemma LandIsSound(capacity: nat, isEntitled: Key -> bool, s: State, k: Key, landed: seq<Key>)
    requires Sound(capacity, s.order, s.values, isEntitled) && landed == Land(capacity, s.order, k)
    ensures Sound(capacity, landed, (s.values - Evicted(s.order, capacity))[k := isEntitled(k)], isEntitled)
  {
    LandFacts(capacity, s.order, k);
  }

  lemma LandFacts(capacity: nat, order: seq<Key>, k: Key)
    requires capacity > 0 && |order| <= capacity && NoDuplicates(order)
    ensures |Land(capacity, order, k)| <= capacity && NoDuplicates(Land(capacity, order, k))
    ensures forall x :: x in Land(capacity, order, k) <==>
              x == k || (x in order && (|order| == capacity ==> x != order[0]))
  {
    assert order != [] ==> order == [order[0]] + order[1..];
  }
}
