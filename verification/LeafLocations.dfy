/** Where the leaves of an object lie, and what paths and values a flat dict may hold (`tracecat/parse.py`). */
module LeafLocations {
  import opened Decimals
  import opened FlatObjects
  import opened Wrappers

  // ---------------------------------------------------------------- locations

  datatype Step = Key(key: string) | Index(index: nat)

  /** The steps lead from the value to a leaf with that scalar. */
  ghost predicate LeadsTo(v: Value, steps: seq<Step>, x: int)
    decreases v
  {
    if steps == [] then v == Leaf(x)
    else match steps[0]
      case Index(i) => v.List? && i < |v.items| && LeadsTo(v.items[i], steps[1..], x)
      case Key(k) => v.Dict? && LeadsFrom(v.entries, k, steps[1..], x)
  }

  /** The steps lead to it from some entry under the key. */
  ghost predicate LeadsFrom(es: Entries, k: string, steps: seq<Step>, x: int)
    decreases es
  {
    es.Cons? && ((es.key == k && LeadsTo(es.value, steps, x)) || LeadsFrom(es.rest, k, steps, x))
  }

  /** A key follows its parent after a dot, if there is a parent; an index follows it in brackets. */
  ghost function Place(parent: string, step: Step): string {
    match step
    case Key(k) => if parent == "" then k else parent + "." + k
    case Index(i) => parent + "[" + Decimal(i) + "]"
  }

  ghost function Location(parent: string, steps: seq<Step>): string
    decreases |steps|
  {
    if steps == [] then parent else Location(Place(parent, steps[0]), steps[1..])
  }

  ghost predicate HasLeaf(v: Value, parent: string, leaf: (string, int)) {
    exists steps: seq<Step> :: LeadsTo(v, steps, leaf.1) && Location(parent, steps) == leaf.0
  }

  ghost predicate EntriesHaveLeaf(es: Entries, parent: string, leaf: (string, int)) {
    exists k, steps: seq<Step> :: LeadsFrom(es, k, steps, leaf.1) && Location(Place(parent, Key(k)), steps) == leaf.0
  }

  ghost predicate ItemsHaveLeaf(list: Value, from: nat, parent: string, leaf: (string, int))
    requires list.List?
  {
    exists i: nat :: from <= i < |list.items| && HasLeaf(list.items[i], Place(parent, Index(i)), leaf)
  }

  lemma LeafOfItem(list: Value, i: nat, parent: string, leaf: (string, int))
    requires list.List? && i < |list.items| && HasLeaf(list.items[i], Place(parent, Index(i)), leaf)
    ensures HasLeaf(list, parent, leaf)
  {
    var steps: seq<Step> :|
      LeadsTo(list.items[i], steps, leaf.1) && Location(Place(parent, Index(i)), steps) == leaf.0;
    var whole := [Index(i)] + steps;
    assert whole[1..] == steps;
    assert LeadsTo(list, whole, leaf.1) && Location(parent, whole) == leaf.0;
  }

  lemma LeafOfList(list: Value, parent: string, leaf: (string, int))
    requires list.List?
    ensures HasLeaf(list, parent, leaf) <==> ItemsHaveLeaf(list, 0, parent, leaf)
  {
    if HasLeaf(list, parent, leaf) {
      var steps: seq<Step> :| LeadsTo(list, steps, leaf.1) && Location(parent, steps) == leaf.0;
      var i := steps[0].index;
      assert LeadsTo(list.items[i], steps[1..], leaf.1);
      assert HasLeaf(list.items[i], Place(parent, Index(i)), leaf);
    }
    if ItemsHaveLeaf(list, 0, parent, leaf) {
      var i: nat :| i < |list.items| && HasLeaf(list.items[i], Place(parent, Index(i)), leaf);
      LeafOfItem(list, i, parent, leaf);
    }
  }

  lemma LeafOfDict(v: Value, parent: string, leaf: (string, int))
    requires v.Dict?
    ensures HasLeaf(v, parent, leaf) <==> EntriesHaveLeaf(v.entries, parent, leaf)
  {
    if HasLeaf(v, parent, leaf) {
      var steps: seq<Step> :| LeadsTo(v, steps, leaf.1) && Location(parent, steps) == leaf.0;
      assert LeadsFrom(v.entries, steps[0].key, steps[1..], leaf.1);
    }
    if EntriesHaveLeaf(v.entries, parent, leaf) {
      var k, steps: seq<Step> :|
        LeadsFrom(v.entries, k, steps, leaf.1) && Location(Place(parent, Key(k)), steps) == leaf.0;
      var whole := [Key(k)] + steps;
      assert whole[1..] == steps;
      assert LeadsTo(v, whole, leaf.1) && Location(parent, whole) == leaf.0;
    }
  }

  lemma LeafOfEntries(es: Entries, parent: string, leaf: (string, int))
    requires es.Cons?
    ensures EntriesHaveLeaf(es, parent, leaf) <==>
            HasLeaf(es.value, Place(parent, Key(es.key)), leaf) || EntriesHaveLeaf(es.rest, parent, leaf)
  {
    if HasLeaf(es.value, Place(parent, Key(es.key)), leaf) {
      var steps: seq<Step> :|
        LeadsTo(es.value, steps, leaf.1) && Location(Place(parent, Key(es.key)), steps) == leaf.0;
      assert LeadsFrom(es, es.key, steps, leaf.1);
    }
    if EntriesHaveLeaf(es.rest, parent, leaf) {
      var k, steps: seq<Step> :|
        LeadsFrom(es.rest, k, steps, leaf.1) && Location(Place(parent, Key(k)), steps) == leaf.0;
      assert LeadsFrom(es, k, steps, leaf.1);
    }
  }

  /**
   * The leaves of an object are exactly the scalars that keys and indices lead to, each at its location: keys
   * joined by dots, list items numbered from 0 in brackets.
   */
  lemma {:induction false} LeavesExactly(v: Value, parent: string, leaf: (string, int))
    ensures leaf in Leaves(v, parent) <==> HasLeaf(v, parent, leaf)
    decreases v, if v.List? then |v.items| + 1 else 0
  {
    match v
    case Leaf(x) =>
      if leaf == (parent, x) {
        assert LeadsTo(v, [], x) && Location(parent, []) == parent;
      }
    case List(items) =>
      ItemsExactly(v, 0, parent, leaf);
      LeafOfList(v, parent, leaf);
    case Dict(es) =>
      EntriesExactly(es, parent, leaf);
      LeafOfDict(v, parent, leaf);
  }

  lemma {:induction false} EntriesExactly(es: Entries, parent: string, leaf: (string, int))
    ensures leaf in LeavesOfEntries(es, parent) <==> EntriesHaveLeaf(es, parent, leaf)
    decreases es, 0
  {
    match es
    case Nil =>
    case Cons(k, v, rest) =>
      LeavesExactly(v, Place(parent, Key(k)), leaf);
      EntriesExactly(rest, parent, leaf);
      LeafOfEntries(es, parent, leaf);
  }

  lemma {:induction false} ItemsExactly(list: Value, i: nat, parent: string, leaf: (string, int))
    requires list.List? && i <= |list.items|
    ensures leaf in LeavesOfItems(list, i, parent) <==> ItemsHaveLeaf(list, i, parent, leaf)
    decreases list, |list.items| - i
  {
    if i < |list.items| {
      LeavesExactly(list.items[i], Place(parent, Index(i)), leaf);
      ItemsExactly(list, i + 1, parent, leaf);
    }
  }

  /** The items of a list are traversed in order: those of one more item come last, numbered by how many precede it. */
  lemma LeavesOfMoreItems(items: seq<Value>, v: Value, parent: string)
    ensures Leaves(List(items + [v]), parent) ==
            Leaves(List(items), parent) + Leaves(v, parent + "[" + Decimal(|items|) + "]")
  {
    ItemsOfMore(items, v, 0, parent);
  }

  lemma {:induction false} ItemsOfMore(items: seq<Value>, v: Value, i: nat, parent: string)
    requires i <= |items|
    ensures LeavesOfItems(List(items + [v]), i, parent) ==
            LeavesOfItems(List(items), i, parent) + Leaves(v, parent + "[" + Decimal(|items|) + "]")
    decreases |items| - i
  {
    var more := items + [v];
    if i < |items| {
      ItemsOfMore(items, v, i + 1, parent);
      assert more[i] == items[i];
    } else {
      assert more[i] == v;
      assert LeavesOfItems(List(more), i + 1, parent) == [];
    }
  }

  // ---------------------------------------------------------------- paths

  /** One path is a prefix of the other exactly if they are equal or one continues the other after a dot. */
  lemma PathsClash(p: string, q: string)
    ensures Clash(Split(p), Split(q)) <==> p == q || p + "." <= q || q + "." <= p
  {
    PrefixOfPath(p, q);
    PrefixOfPath(q, p);
  }

  lemma PrefixOfPath(p: string, q: string)
    ensures Split(p) <= Split(q) <==> p == q || p + "." <= q
  {
    if p + "." <= q {
      var rest := q[|p| + 1..];
      assert q == p + "." + rest;
      SplitConcat(p, rest);
    }
    if Split(p) <= Split(q) {
      PathContinues(p, q, Split(p), Split(q)[|Split(p)|..]);
    }
  }

  lemma PathContinues(p: string, q: string, stem: Path, tail: Path)
    requires Split(p) == stem && Split(q) == stem + tail
    ensures p == q || p + "." <= q
  {
    JoinSplit(p);
    JoinSplit(q);
    if tail == [] {
      assert stem + tail == stem;
    } else {
      JoinPaths(stem, tail);
      assert q == p + "." + Join(tail);
    }
  }

  lemma SplitFirst(whole: string, first: char, rest: string)
    requires whole == [first] + rest
    ensures Split(whole) ==
            if first == '.' then [""] + Split(rest) else [[first] + Split(rest)[0]] + Split(rest)[1..]
  {
    assert whole[1..] == rest;
  }

  lemma SplitFurther(first: char, tail: string, p: string, after: string, whole: string, more: Path)
    requires p == [first] + tail && whole == [first] + after && Split(after) == Split(tail) + more
    ensures Split(whole) == Split(p) + more
  {
    SplitFirst(p, first, tail);
    SplitFirst(whole, first, after);
    Regroup(first, Split(tail), more);
  }

  lemma Regroup(first: char, a: Path, more: Path)
    requires a != []
    ensures [""] + (a + more) == ([""] + a) + more
    ensures [[first] + (a + more)[0]] + (a + more)[1..] == ([[first] + a[0]] + a[1..]) + more
  {}

  lemma {:induction false} SplitConcat(p: string, rest: string)
    ensures Split(p + "." + rest) == Split(p) + Split(rest)
    decreases |p|
  {
    var whole := p + "." + rest;
    if p == "" {
      SplitFirst(whole, '.', rest);
    } else {
      SplitConcat(p[1..], rest);
      SplitFurther(p[0], p[1..], p, p[1..] + "." + rest, whole, Split(rest));
    }
  }

  lemma {:induction false} JoinPaths(a: Path, b: Path)
    requires a != [] && b != []
    ensures Join(a + b) == Join(a) + "." + Join(b)
    decreases |a|
  {
    assert (a + b)[1..] == a[1..] + b;
    if |a| > 1 {
      JoinPaths(a[1..], b);
    } else {
      assert a[1..] + b == b;
    }
  }

  // ---------------------------------------------------------------- single values

  ghost predicate DotFreeKeys(flat: Entries) {
    flat.Cons? ==> DotFree(flat.key) && DotFreeKeys(flat.rest)
  }

  /** What rebuilding stores for a value: a list's only item, or the value itself. */
  ghost predicate Stores(given: Option<Value>, stored: Option<Value>) {
    && (given.None? <==> stored.None?)
    && (forall w :: given == Some(List([w])) ==> stored == Some(w))
    && (given.Some? && !(given.value.List? && |given.value.items| == 1) ==> stored == given)
  }

  /**
   * A flat dict whose keys hold no dots is rebuilt key by key: a list of one item becomes that item, and
   * everything else, longer and empty lists included, stays as it is.
   */
  lemma FlatIsKept(flat: Entries, k: string)
    requires DotFreeKeys(flat) && UniqueKeys(flat)
    ensures Reconstruct(flat).Ok? && Stores(Get(flat, k), Get(Reconstruct(flat).value, k))
  {
    KeptFrom(Nil, flat, k);
  }

  lemma {:induction false} KeptFrom(es: Entries, flat: Entries, k: string)
    requires DotFreeKeys(flat) && UniqueKeys(flat)
    ensures InsertAll(es, flat).Ok?
    ensures var r := Get(InsertAll(es, flat).value, k);
            if Get(flat, k).None? then r == Get(es, k) else Stores(Get(flat, k), r)
    decreases flat
  {
    if flat.Cons? {
      SplitDotFree(flat.key);
      var v := Unwrap(flat.value);
      GetPut(es, flat.key, v, k);
      KeptFrom(Put(es, flat.key, v), flat.rest, k);
    }
  }
}
