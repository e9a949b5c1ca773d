/** Flattening nested objects to dotted paths and rebuilding them (`tracecat/parse.py`). */
module FlatObjects {
  import opened Decimals
  import opened Wrappers

  /** A Python object: a dict keeps its insertion order. */
  datatype Value = Leaf(scalar: int) | List(items: seq<Value>) | Dict(entries: Entries)

  datatype Entries = Nil | Cons(key: string, value: Value, rest: Entries)

  datatype Error = NotAMapping

  // ---------------------------------------------------------------- dict primitives

  function Get(es: Entries, k: string): Option<Value> {
    match es
    case Nil => None
    case Cons(key, v, rest) => if key == k then Some(v) else Get(rest, k)
  }

  /** `d[k] = v`: an existing key keeps its place, a new one goes last. */
  function Put(es: Entries, k: string, v: Value): Entries {
    match es
    case Nil => Cons(k, v, Nil)
    case Cons(key, w, rest) => if key == k then Cons(k, v, rest) else Cons(key, w, Put(rest, k, v))
  }

  function Concat(a: Entries, b: Entries): Entries {
    match a
    case Nil => b
    case Cons(k, v, rest) => Cons(k, v, Concat(rest, b))
  }

  /** A real dict never holds a key twice, at any depth. */
  predicate UniqueKeys(es: Entries) {
    match es
    case Nil => true
    case Cons(k, v, rest) =>
      Get(rest, k) == None && UniqueKeys(rest) && (v.Dict? ==> UniqueKeys(v.entries))
  }

  // ---------------------------------------------------------------- paths

  /** `path.split(".")` */
  function Split(path: string): (segs: seq<string>)
    ensures |segs| > 0
  {
    if path == "" then [""]
    else
      var tail := Split(path[1..]);
      if path[0] == '.' then [""] + tail else [[path[0]] + tail[0]] + tail[1..]
  }

  predicate DotFree(key: string) {
    '.' !in key
  }

  lemma {:induction false} SplitDotFree(path: string)
    ensures forall i :: 0 <= i < |Split(path)| ==> DotFree(Split(path)[i])
    ensures Split(path)[0] == "" <==> path == "" || path[0] == '.'
    ensures |Split(path)| == 1 <==> DotFree(path)
    ensures DotFree(path) ==> Split(path) == [path]
  {
    if path != "" {
      SplitDotFree(path[1..]);
      assert path == [path[0]] + path[1..];
    }
  }

  lemma {:induction false} SplitChild(parent: string, key: string)
    requires DotFree(key)
    ensures Split(parent + "." + key) == Split(parent) + [key]
  {
    var whole := parent + "." + key;
    if parent == "" {
      assert whole[1..] == key;
      SplitDotFree(key);
    } else {
      assert whole[1..] == parent[1..] + "." + key;
      SplitChild(parent[1..], key);
    }
  }

  // ---------------------------------------------------------------- flattening

  /** `traverse_leaves`: every leaf with its dotted location, in traversal order. */
  function Leaves(v: Value, parent: string): seq<(string, int)>
    decreases v, if v.List? then |v.items| + 1 else 0
  {
    match v
    case Leaf(x) => [(parent, x)]
    case List(items) => LeavesOfItems(v, 0, parent)
    case Dict(es) => LeavesOfEntries(es, parent)
  }

  function LeavesOfEntries(es: Entries, parent: string): seq<(string, int)>
    decreases es, 0
  {
    match es
    case Nil => []
    case Cons(k, v, rest) =>
      Leaves(v, if parent == "" then k else parent + "." + k) + LeavesOfEntries(rest, parent)
  }

  function LeavesOfItems(list: Value, i: nat, parent: string): seq<(string, int)>
    requires list.List? && i <= |list.items|
    decreases list, |list.items| - i
  {
    if i == |list.items| then []
    else Leaves(list.items[i], parent + "[" + Decimal(i) + "]") + LeavesOfItems(list, i + 1, parent)
  }

  // ---------------------------------------------------------------- rebuilding

  /** `insert_obj_by_path` on split paths: descend with `setdefault`, then assign. */
  function Insert(es: Entries, segs: seq<string>, v: Value): Result<Entries, Error>
    requires |segs| > 0
    decreases |segs|
  {
    if |segs| == 1 then Ok(Put(es, segs[0], v))
    else
      var child := Get(es, segs[0]);
      if child.Some? && !child.value.Dict? then Err(NotAMapping)
      else
        var sub := Insert(if child.Some? then child.value.entries else Nil, segs[1..], v);
        if sub.Err? then sub else Ok(Put(es, segs[0], Dict(sub.value)))
  }

  /** A one-element list stands for its element. */
  function Unwrap(v: Value): Value {
    if v.List? && |v.items| == 1 then v.items[0] else v
  }

  /** The flat dict is itself an ordered dict from paths to values. */
  function InsertAll(es: Entries, flat: Entries): Result<Entries, Error>
    decreases flat
  {
    match flat
    case Nil => Ok(es)
    case Cons(path, v, rest) =>
      var r := Insert(es, Split(path), Unwrap(v));
      if r.Err? then r else InsertAll(r.value, rest)
  }

  function Reconstruct(flat: Entries): Result<Entries, Error> {
    InsertAll(Nil, flat)
  }

  /** `dict(pairs)`: later pairs overwrite earlier ones. */
  function ToDict(acc: Entries, pairs: seq<(string, int)>): Entries
    decreases |pairs|
  {
    if pairs == [] then acc else ToDict(Put(acc, pairs[0].0, Leaf(pairs[0].1)), pairs[1..])
  }

  function Flatten(obj: Entries): Entries {
    ToDict(Nil, LeavesOfEntries(obj, ""))
  }

  // ------------------------------------------------- the same objects on split paths

  type Path = seq<string>

  /** Leaves with their locations as key sequences, for objects without lists. */
  function Spine(v: Value, at: Path): seq<(Path, int)>
    requires NoLists(v)
    decreases v, 0
  {
    match v
    case Leaf(x) => [(at, x)]
    case Dict(es) => SpineOfEntries(es, at)
  }

  function SpineOfEntries(es: Entries, at: Path): seq<(Path, int)>
    requires NoListsIn(es)
    decreases es, 0
  {
    match es
    case Nil => []
    case Cons(k, v, rest) => Spine(v, at + [k]) + SpineOfEntries(rest, at)
  }

  predicate NoLists(v: Value) {
    match v
    case Leaf(_) => true
    case List(_) => false
    case Dict(es) => NoListsIn(es)
  }

  predicate NoListsIn(es: Entries) {
    match es
    case Nil => true
    case Cons(_, v, rest) => NoLists(v) && NoListsIn(rest)
  }

  /** Dot-free keys, no lists and no empty inner dict. */
  predicate Clean(es: Entries) {
    match es
    case Nil => true
    case Cons(k, v, rest) => DotFree(k) && CleanValue(v) && Clean(rest)
  }

  predicate CleanValue(v: Value) {
    match v
    case Leaf(_) => true
    case List(_) => false
    case Dict(es) => es != Nil && Clean(es)
  }

  /** The empty key at the top level, where a parent location is still empty, holds a scalar. */
  predicate EmptyKeyIsScalar(es: Entries) {
    match Get(es, "")
    case None => true
    case Some(v) => v.Leaf?
  }

  lemma {:induction es} CleanHasNoLists(es: Entries)
    requires Clean(es)
    ensures NoListsIn(es)
  {
    match es
    case Nil =>
    case Cons(k, v, rest) =>
      if v.Dict? {
        CleanHasNoLists(v.entries);
      }
      CleanHasNoLists(rest);
  }

  function InsertSpine(es: Entries, leaves: seq<(Path, int)>): Result<Entries, Error>
    requires forall i :: 0 <= i < |leaves| ==> |leaves[i].0| > 0
    decreases |leaves|
  {
    if leaves == [] then Ok(es)
    else
      var r := Insert(es, leaves[0].0, Leaf(leaves[0].1));
      if r.Err? then r else InsertSpine(r.value, leaves[1..])
  }

  lemma {:induction false} GetPut(es: Entries, k: string, v: Value, j: string)
    ensures Get(Put(es, k, v), j) == if j == k then Some(v) else Get(es, j)
  {
    if es.Cons? {
      GetPut(es.rest, k, v, j);
    }
  }

  lemma {:induction false} PutPut(es: Entries, k: string, v: Value, w: Value)
    ensures Put(Put(es, k, v), k, w) == Put(es, k, w)
  {
    if es.Cons? {
      PutPut(es.rest, k, v, w);
    }
  }

  lemma {:induction false} PutFresh(es: Entries, k: string, v: Value)
    requires Get(es, k) == None
    ensures Put(es, k, v) == Concat(es, Cons(k, v, Nil))
  {
    if es.Cons? {
      PutFresh(es.rest, k, v);
    }
  }

  lemma {:induction false} ConcatAssoc(a: Entries, b: Entries, c: Entries)
    ensures Concat(Concat(a, b), c) == Concat(a, Concat(b, c))
    ensures Concat(a, Nil) == a
  {
    if a.Cons? {
      ConcatAssoc(a.rest, b, c);
    }
  }

  lemma {:induction false} GetConcat(a: Entries, b: Entries, k: string)
    ensures Get(Concat(a, b), k) == if Get(a, k).Some? then Get(a, k) else Get(b, k)
  {
    if a.Cons? {
      GetConcat(a.rest, b, k);
    }
  }

  // ---------------------------------------- rebuilding a subtree under one key

  function Under(k: string, leaves: seq<(Path, int)>): seq<(Path, int)> {
    seq(|leaves|, i requires 0 <= i < |leaves| => ([k] + leaves[i].0, leaves[i].1))
  }

  /** Leaves inserted below one key act on that key's dict alone. */
  lemma {:induction false} InsertUnder(es: Entries, k: string, leaves: seq<(Path, int)>)
    requires forall i :: 0 <= i < |leaves| ==> |leaves[i].0| > 0
    requires leaves != []
    requires Get(es, k).Some? ==> Get(es, k).value.Dict?
    ensures var start := if Get(es, k).Some? then Get(es, k).value.entries else Nil;
            InsertSpine(es, Under(k, leaves)) ==
              match InsertSpine(start, leaves)
              case Ok(sub) => Ok(Put(es, k, Dict(sub)))
              case Err(e) => Err(e)
    decreases |leaves|
  {
    var start := if Get(es, k).Some? then Get(es, k).value.entries else Nil;
    var (path, x) := leaves[0];
    assert ([k] + path)[1..] == path;
    assert Under(k, leaves)[1..] == Under(k, leaves[1..]);
    var first := Insert(start, path, Leaf(x));
    if first.Ok? {
      var es' := Put(es, k, Dict(first.value));
      assert Insert(es, [k] + path, Leaf(x)) == Ok(es');
      GetPut(es, k, Dict(first.value), k);
      if |leaves| > 1 {
        InsertUnder(es', k, leaves[1..]);
        if InsertSpine(first.value, leaves[1..]).Ok? {
          PutPut(es, k, Dict(first.value), Dict(InsertSpine(first.value, leaves[1..]).value));
        }
      }
    }
  }

  lemma {:induction false} UnderConcat(k: string, a: seq<(Path, int)>, b: seq<(Path, int)>)
    ensures Under(k, a + b) == Under(k, a) + Under(k, b)
  {}

  lemma {:induction false} SpineUnder(v: Value, k: string, at: Path)
    requires NoLists(v)
    ensures Spine(v, [k] + at) == Under(k, Spine(v, at))
    decreases v
  {
    if v.Dict? {
      SpineOfEntriesUnder(v.entries, k, at);
    }
  }

  lemma {:induction false} SpineOfEntriesUnder(es: Entries, k: string, at: Path)
    requires NoListsIn(es)
    ensures SpineOfEntries(es, [k] + at) == Under(k, SpineOfEntries(es, at))
    decreases es
  {
    if es.Cons? {
      assert [k] + at + [es.key] == [k] + (at + [es.key]);
      SpineUnder(es.value, k, at + [es.key]);
      SpineOfEntriesUnder(es.rest, k, at);
      UnderConcat(k, Spine(es.value, at + [es.key]), SpineOfEntries(es.rest, at));
    }
  }

  lemma {:induction false} SpinePaths(v: Value, at: Path)
    requires NoLists(v)
    ensures forall i :: 0 <= i < |Spine(v, at)| ==> at <= Spine(v, at)[i].0
    ensures CleanValue(v) ==> Spine(v, at) != []
    decreases v
  {
    if v.Dict? {
      SpineOfEntriesPaths(v.entries, at);
    }
  }

  lemma {:induction false} SpineOfEntriesPaths(es: Entries, at: Path)
    requires NoListsIn(es)
    ensures forall i :: 0 <= i < |SpineOfEntries(es, at)| ==>
              var p: Path := SpineOfEntries(es, at)[i].0;
              at < p && Get(es, p[|at|]).Some?
    ensures Clean(es) && es != Nil ==> SpineOfEntries(es, at) != []
    decreases es
  {
    if es.Cons? {
      SpinePaths(es.value, at + [es.key]);
      SpineOfEntriesPaths(es.rest, at);
      var a: seq<(Path, int)> := Spine(es.value, at + [es.key]);
      var b: seq<(Path, int)> := SpineOfEntries(es.rest, at);
      forall i | 0 <= i < |a + b|
        ensures var p: Path := (a + b)[i].0; at < p && Get(es, p[|at|]).Some?
      {
        if i < |a| {
          assert at + [es.key] <= a[i].0;
        } else {
          assert (a + b)[i] == b[i - |a|];
        }
      }
    }
  }

  lemma {:induction false} InsertSpineConcat(es: Entries, a: seq<(Path, int)>, b: seq<(Path, int)>)
    requires forall i :: 0 <= i < |a| ==> |a[i].0| > 0
    requires forall i :: 0 <= i < |b| ==> |b[i].0| > 0
    ensures InsertSpine(es, a + b) ==
            (var r := InsertSpine(es, a); if r.Err? then r else InsertSpine(r.value, b))
    decreases |a|
  {
    if a == [] {
      assert a + b == b;
    } else {
      assert (a + b)[1..] == a[1..] + b;
      var r := Insert(es, a[0].0, Leaf(a[0].1));
      if r.Ok? {
        InsertSpineConcat(r.value, a[1..], b);
      }
    }
  }

  lemma {:induction false} RebuildValue(es: Entries, k: string, v: Value)
    requires CleanValue(v) && NoLists(v) && Get(es, k) == None
    requires v.Dict? ==> UniqueKeys(v.entries)
    ensures forall i :: 0 <= i < |Spine(v, [k])| ==> |Spine(v, [k])[i].0| > 0
    ensures InsertSpine(es, Spine(v, [k])) == Ok(Concat(es, Cons(k, v, Nil)))
    decreases v
  {
    SpinePaths(v, [k]);
    PutFresh(es, k, v);
    if v.Dict? {
      SpineOfEntriesPaths(v.entries, []);
      SpineOfEntriesUnder(v.entries, k, []);
      assert [k] + [] == [k];
      InsertUnder(es, k, SpineOfEntries(v.entries, []));
      RebuildEntries(Nil, v.entries);
    }
  }

  lemma {:induction false} RebuildEntries(done: Entries, es: Entries)
    requires Clean(es) && NoListsIn(es) && UniqueKeys(es)
    requires forall k :: Get(es, k).Some? ==> Get(done, k) == None
    ensures forall i :: 0 <= i < |SpineOfEntries(es, [])| ==> |SpineOfEntries(es, [])[i].0| > 0
    ensures InsertSpine(done, SpineOfEntries(es, [])) == Ok(Concat(done, es))
    decreases es
  {
    SpineOfEntriesPaths(es, []);
    ConcatAssoc(done, es, Nil);
    if es.Cons? {
      assert [] + [es.key] == [es.key];
      assert Get(es, es.key).Some?;
      RebuildValue(done, es.key, es.value);
      var done' := Concat(done, Cons(es.key, es.value, Nil));
      forall k | Get(es.rest, k).Some?
        ensures Get(done', k) == None
      {
        assert k != es.key;
        assert Get(es, k).Some?;
        GetConcat(done, Cons(es.key, es.value, Nil), k);
      }
      SpineOfEntriesPaths(es.rest, []);
      RebuildEntries(done', es.rest);
      InsertSpineConcat(done, Spine(es.value, [es.key]), SpineOfEntries(es.rest, []));
      ConcatAssoc(done, Cons(es.key, es.value, Nil), es.rest);
    }
  }

  // ------------------------------------------------- dotted text and split paths agree

  function SplitAll(pairs: seq<(string, int)>): seq<(Path, int)> {
    seq(|pairs|, i requires 0 <= i < |pairs| => (Split(pairs[i].0), pairs[i].1))
  }

  lemma {:induction false} SplitAllConcat(a: seq<(string, int)>, b: seq<(string, int)>)
    ensures SplitAll(a + b) == SplitAll(a) + SplitAll(b)
  {}

  lemma {:induction false} LeavesSplit(v: Value, parent: string)
    requires CleanValue(v) && NoLists(v)
    requires v.Dict? ==> parent != ""
    ensures SplitAll(Leaves(v, parent)) == Spine(v, Split(parent))
    decreases v
  {
    if v.Dict? {
      LeavesOfEntriesSplit(v.entries, parent);
    }
  }

  lemma {:induction false} LeavesOfEntriesSplit(es: Entries, parent: string)
    requires Clean(es) && NoListsIn(es)
    requires parent == "" ==> EmptyKeyIsScalar(es) && UniqueKeys(es)
    ensures SplitAll(LeavesOfEntries(es, parent)) ==
              SpineOfEntries(es, if parent == "" then [] else Split(parent))
    decreases es
  {
    if es.Cons? {
      var child := if parent == "" then es.key else parent + "." + es.key;
      assert Get(es, es.key) == Some(es.value);
      assert parent == "" ==> Get(es.rest, "") == (if es.key == "" then None else Get(es, ""));
      if parent == "" {
        SplitDotFree(es.key);
        assert [] + [es.key] == [es.key];
      } else {
        SplitChild(parent, es.key);
      }
      LeavesSplit(es.value, child);
      LeavesOfEntriesSplit(es.rest, parent);
      SplitAllConcat(Leaves(es.value, child), LeavesOfEntries(es.rest, parent));
    }
  }

  // ---------------------------------------------------------------- flat dicts

  function AsEntries(pairs: seq<(string, int)>): Entries
    decreases |pairs|
  {
    if pairs == [] then Nil else Cons(pairs[0].0, Leaf(pairs[0].1), AsEntries(pairs[1..]))
  }

  ghost predicate DistinctPaths<P(!new)>(pairs: seq<(P, int)>) {
    forall i, j :: 0 <= i < j < |pairs| ==> pairs[i].0 != pairs[j].0
  }

  lemma {:induction false} ToDictOfDistinct(acc: Entries, pairs: seq<(string, int)>)
    requires DistinctPaths(pairs)
    requires forall i :: 0 <= i < |pairs| ==> Get(acc, pairs[i].0) == None
    ensures ToDict(acc, pairs) == Concat(acc, AsEntries(pairs))
    decreases |pairs|
  {
    ConcatAssoc(acc, Nil, Nil);
    if pairs != [] {
      var one := Cons(pairs[0].0, Leaf(pairs[0].1), Nil);
      PutFresh(acc, pairs[0].0, Leaf(pairs[0].1));
      forall i | 0 <= i < |pairs[1..]|
        ensures Get(Put(acc, pairs[0].0, Leaf(pairs[0].1)), pairs[1..][i].0) == None
      {
        GetPut(acc, pairs[0].0, Leaf(pairs[0].1), pairs[i + 1].0);
      }
      ToDictOfDistinct(Put(acc, pairs[0].0, Leaf(pairs[0].1)), pairs[1..]);
      ConcatAssoc(acc, one, AsEntries(pairs[1..]));
    }
  }

  lemma {:induction false} InsertAllIsInsertSpine(es: Entries, pairs: seq<(string, int)>)
    ensures InsertAll(es, AsEntries(pairs)) == InsertSpine(es, SplitAll(pairs))
    decreases |pairs|
  {
    if pairs != [] {
      assert SplitAll(pairs)[1..] == SplitAll(pairs[1..]);
      var r := Insert(es, Split(pairs[0].0), Leaf(pairs[0].1));
      if r.Ok? {
        InsertAllIsInsertSpine(r.value, pairs[1..]);
      }
    }
  }

  lemma {:induction false} SpineDistinct(v: Value, at: Path)
    requires NoLists(v) && (v.Dict? ==> UniqueKeys(v.entries))
    ensures DistinctPaths(Spine(v, at))
    decreases v
  {
    if v.Dict? {
      SpineOfEntriesDistinct(v.entries, at);
    }
  }

  lemma {:induction false} SpineOfEntriesDistinct(es: Entries, at: Path)
    requires NoListsIn(es) && UniqueKeys(es)
    ensures DistinctPaths(SpineOfEntries(es, at))
    decreases es
  {
    if es.Cons? {
      var a: seq<(Path, int)> := Spine(es.value, at + [es.key]);
      var b: seq<(Path, int)> := SpineOfEntries(es.rest, at);
      SpineDistinct(es.value, at + [es.key]);
      SpineOfEntriesDistinct(es.rest, at);
      SpinePaths(es.value, at + [es.key]);
      SpineOfEntriesPaths(es.rest, at);
      forall i, j | 0 <= i < j < |a + b|
        ensures (a + b)[i].0 != (a + b)[j].0
      {
        if i < |a| <= j {
          assert (a + b)[j] == b[j - |a|];
          assert a[i].0[|at|] == es.key;
        }
      }
    }
  }

  /** What a round trip needs of an object. */
  predicate Flattenable(obj: Entries) {
    Clean(obj) && EmptyKeyIsScalar(obj)
  }

  lemma {:induction false} FlattenableSurvives(obj: Entries)
    requires UniqueKeys(obj) && Flattenable(obj)
    ensures Reconstruct(Flatten(obj)) == Ok(obj)
  {
    CleanHasNoLists(obj);
    var pairs := LeavesOfEntries(obj, "");
    LeavesOfEntriesSplit(obj, "");
    SpineOfEntriesDistinct(obj, []);
    forall i, j | 0 <= i < j < |pairs|
      ensures pairs[i].0 != pairs[j].0
    {
      assert SplitAll(pairs)[i].0 != SplitAll(pairs)[j].0;
    }
    ToDictOfDistinct(Nil, pairs);
    InsertAllIsInsertSpine(Nil, pairs);
    RebuildEntries(Nil, obj);
  }

  // ------------------------------------------------- whatever is rebuilt is flattenable

  lemma {:induction false} PutClean(es: Entries, k: string, v: Value)
    requires Clean(es) && DotFree(k) && CleanValue(v)
    ensures Clean(Put(es, k, v)) && Put(es, k, v) != Nil
  {
    if es.Cons? {
      PutClean(es.rest, k, v);
    }
  }

  lemma {:induction false} GetClean(es: Entries, k: string)
    requires Clean(es) && Get(es, k).Some?
    ensures CleanValue(Get(es, k).value)
  {
    if es.key != k {
      GetClean(es.rest, k);
    }
  }

  lemma {:induction false} InsertClean(es: Entries, segs: seq<string>, x: int)
    requires Clean(es) && |segs| > 0 && forall i :: 0 <= i < |segs| ==> DotFree(segs[i])
    requires Insert(es, segs, Leaf(x)).Ok?
    ensures Clean(Insert(es, segs, Leaf(x)).value) && Insert(es, segs, Leaf(x)).value != Nil
    ensures EmptyKeyIsScalar(es) && (segs[0] == "" ==> |segs| == 1) ==>
              EmptyKeyIsScalar(Insert(es, segs, Leaf(x)).value)
    decreases |segs|
  {
    if |segs| == 1 {
      PutClean(es, segs[0], Leaf(x));
      GetPut(es, segs[0], Leaf(x), "");
    } else {
      var child := Get(es, segs[0]);
      if child.Some? {
        GetClean(es, segs[0]);
      }
      var start := if child.Some? then child.value.entries else Nil;
      InsertClean(start, segs[1..], x);
      var sub := Insert(start, segs[1..], Leaf(x)).value;
      PutClean(es, segs[0], Dict(sub));
      GetPut(es, segs[0], Dict(sub), "");
    }
  }

  predicate LeadingDot(path: string) {
    path != "" && path[0] == '.'
  }

  ghost predicate NoLeadingDots(pairs: seq<(string, int)>) {
    forall i :: 0 <= i < |pairs| ==> !LeadingDot(pairs[i].0)
  }

  lemma {:induction false} InsertPairsClean(es: Entries, pairs: seq<(string, int)>)
    requires Clean(es) && InsertSpine(es, SplitAll(pairs)).Ok?
    ensures Clean(InsertSpine(es, SplitAll(pairs)).value)
    ensures EmptyKeyIsScalar(es) && NoLeadingDots(pairs) ==>
              EmptyKeyIsScalar(InsertSpine(es, SplitAll(pairs)).value)
    decreases |pairs|
  {
    if pairs != [] {
      assert SplitAll(pairs)[1..] == SplitAll(pairs[1..]);
      SplitDotFree(pairs[0].0);
      InsertClean(es, Split(pairs[0].0), pairs[0].1);
      InsertPairsClean(Insert(es, Split(pairs[0].0), Leaf(pairs[0].1)).value, pairs[1..]);
    }
  }

  /** A flat dict of scalars is the entry list of its own pairs. */
  predicate Scalars(flat: Entries) {
    match flat
    case Nil => true
    case Cons(_, v, rest) => v.Leaf? && Scalars(rest)
  }

  function Pairs(flat: Entries): seq<(string, int)>
    requires Scalars(flat)
  {
    match flat
    case Nil => []
    case Cons(k, v, rest) => [(k, v.scalar)] + Pairs(rest)
  }

  lemma {:induction false} AsEntriesOfPairs(flat: Entries)
    requires Scalars(flat)
    ensures AsEntries(Pairs(flat)) == flat
  {
    if flat.Cons? {
      AsEntriesOfPairs(flat.rest);
    }
  }

  lemma {:induction false} ToDictScalars(acc: Entries, pairs: seq<(string, int)>)
    requires Scalars(acc) && NoLeadingDots(Pairs(acc)) && NoLeadingDots(pairs)
    ensures Scalars(ToDict(acc, pairs)) && NoLeadingDots(Pairs(ToDict(acc, pairs)))
    decreases |pairs|
  {
    if pairs != [] {
      PutScalar(acc, pairs[0].0, pairs[0].1);
      ToDictScalars(Put(acc, pairs[0].0, Leaf(pairs[0].1)), pairs[1..]);
    }
  }

  lemma {:induction false} PutScalar(flat: Entries, k: string, x: int)
    requires Scalars(flat)
    ensures Scalars(Put(flat, k, Leaf(x)))
    ensures NoLeadingDots(Pairs(flat)) && !LeadingDot(k) ==> NoLeadingDots(Pairs(Put(flat, k, Leaf(x))))
  {
    if flat.Cons? {
      PutScalar(flat.rest, k, x);
      assert NoLeadingDots(Pairs(flat)) ==>
          !LeadingDot(Pairs(flat)[0].0) && NoLeadingDots(Pairs(flat)[1..]);
    }
  }

  lemma {:induction false} LeavesHaveNoLeadingDot(v: Value, parent: string)
    requires CleanValue(v) && !LeadingDot(parent)
    ensures NoLeadingDots(Leaves(v, parent))
    decreases v
  {
    if v.Dict? {
      LeavesOfEntriesHaveNoLeadingDot(v.entries, parent);
    }
  }

  lemma {:induction false} LeavesOfEntriesHaveNoLeadingDot(es: Entries, parent: string)
    requires Clean(es) && !LeadingDot(parent)
    ensures NoLeadingDots(LeavesOfEntries(es, parent))
    decreases es
  {
    if es.Cons? {
      LeavesHaveNoLeadingDot(es.value, if parent == "" then es.key else parent + "." + es.key);
      LeavesOfEntriesHaveNoLeadingDot(es.rest, parent);
    }
  }

  lemma {:induction false} ToDictIsScalars(acc: Entries, pairs: seq<(string, int)>)
    requires Scalars(acc)
    ensures Scalars(ToDict(acc, pairs))
    decreases |pairs|
  {
    if pairs != [] {
      PutScalar(acc, pairs[0].0, pairs[0].1);
      ToDictIsScalars(Put(acc, pairs[0].0, Leaf(pairs[0].1)), pairs[1..]);
    }
  }

  /** Rebuilding the flattened leaves returns the object exactly when it is flattenable. */
  lemma {:induction false} RebuildFlattened(obj: Entries)
    requires UniqueKeys(obj)
    ensures Reconstruct(Flatten(obj)) == Ok(obj) <==> Flattenable(obj)
  {
    if Flattenable(obj) {
      FlattenableSurvives(obj);
    } else if Reconstruct(Flatten(obj)) == Ok(obj) {
      var flat := Flatten(obj);
      ToDictIsScalars(Nil, LeavesOfEntries(obj, ""));
      AsEntriesOfPairs(flat);
      InsertAllIsInsertSpine(Nil, Pairs(flat));
      InsertPairsClean(Nil, Pairs(flat));
      LeavesOfEntriesHaveNoLeadingDot(obj, "");
      ToDictScalars(Nil, LeavesOfEntries(obj, ""));
      assert false;
    }
  }

  // ------------------------------------------------- flattening what was rebuilt

  /** What an object holds at a path, a leaf or an inner dict. */
  function Below(es: Entries, p: Path): Option<Value>
    requires |p| > 0
    decreases |p|
  {
    var child := Get(es, p[0]);
    if |p| == 1 then child
    else if child.Some? && child.value.Dict? then Below(child.value.entries, p[1..])
    else None
  }

  function SpineOf(v: Option<Value>, at: Path): seq<(Path, int)>
    requires v.Some? ==> NoLists(v.value)
  {
    if v.Some? then Spine(v.value, at) else []
  }

  lemma {:induction false} GetNoLists(es: Entries, k: string)
    requires NoListsIn(es)
    ensures Get(es, k).Some? ==> NoLists(Get(es, k).value)
  {
    if es.Cons? {
      GetNoLists(es.rest, k);
    }
  }

  lemma {:induction false} BelowClean(es: Entries, p: Path)
    requires Clean(es) && |p| > 0
    ensures Below(es, p).Some? ==> CleanValue(Below(es, p).value) && NoLists(Below(es, p).value)
    decreases |p|
  {
    if Get(es, p[0]).Some? {
      GetClean(es, p[0]);
      CleanHasNoLists(es);
      GetNoLists(es, p[0]);
      if |p| > 1 && Get(es, p[0]).value.Dict? {
        BelowClean(Get(es, p[0]).value.entries, p[1..]);
      }
    }
  }

  lemma {:induction false} SpineCons(k: string, v: Value, rest: Entries, at: Path)
    requires NoLists(v) && NoListsIn(rest)
    ensures NoListsIn(Cons(k, v, rest))
    ensures multiset(SpineOfEntries(Cons(k, v, rest), at)) ==
            multiset(Spine(v, at + [k])) + multiset(SpineOfEntries(rest, at))
  {
    assert SpineOfEntries(Cons(k, v, rest), at) == Spine(v, at + [k]) + SpineOfEntries(rest, at);
  }

  lemma Shift<T>(here: multiset<T>, put: multiset<T>, lost: multiset<T>, rest: multiset<T>, added: multiset<T>)
    requires put + lost == rest + added
    ensures here + put + lost == here + rest + added
  {
    assert here + put + lost == here + (put + lost);
  }

  lemma {:induction false} PutSpine(es: Entries, k: string, v: Value, at: Path)
    requires NoListsIn(es) && NoLists(v)
    requires Get(es, k).Some? ==> NoLists(Get(es, k).value)
    ensures NoListsIn(Put(es, k, v))
    ensures multiset(SpineOfEntries(Put(es, k, v), at)) + multiset(SpineOf(Get(es, k), at + [k])) ==
            multiset(SpineOfEntries(es, at)) + multiset(Spine(v, at + [k]))
  {
    if es == Nil {
      SpineCons(k, v, Nil, at);
    } else if es.key == k {
      SpineCons(k, es.value, es.rest, at);
      SpineCons(k, v, es.rest, at);
    } else {
      PutSpine(es.rest, k, v, at);
      SpineCons(es.key, es.value, es.rest, at);
      SpineCons(es.key, es.value, Put(es.rest, k, v), at);
      Shift(multiset(Spine(es.value, at + [es.key])), multiset(SpineOfEntries(Put(es.rest, k, v), at)),
            multiset(SpineOf(Get(es.rest, k), at + [k])), multiset(SpineOfEntries(es.rest, at)),
            multiset(Spine(v, at + [k])));
    }
  }

  /** An insertion adds its leaf and drops exactly the leaves that were at or below its path. */
  lemma {:induction false} InsertSpineLeaves(es: Entries, p: Path, x: int, at: Path, full: Path)
    requires Clean(es) && NoListsIn(es) && |p| > 0 && full == at + p
    requires forall i :: 0 <= i < |p| ==> DotFree(p[i])
    requires Insert(es, p, Leaf(x)).Ok?
    ensures var r := Insert(es, p, Leaf(x)).value;
            Clean(r) && NoListsIn(r) &&
            (Below(es, p).Some? ==> NoLists(Below(es, p).value)) &&
            multiset(SpineOfEntries(r, at)) + multiset(SpineOf(Below(es, p), full)) ==
            multiset(SpineOfEntries(es, at)) + multiset{(full, x)}
    decreases |p|, 1
  {
    var r := Insert(es, p, Leaf(x)).value;
    InsertClean(es, p, x);
    CleanHasNoLists(r);
    BelowClean(es, p);
    GetNoLists(es, p[0]);
    var child := Get(es, p[0]);
    if |p| == 1 {
      assert [p[0]] == p;
      PutSpine(es, p[0], Leaf(x), at);
    } else {
      InsertSpineLeavesBelow(es, p, x, at, full);
    }
  }

  /** The dict that `setdefault` descends into. */
  function Start(es: Entries, k: string): Entries {
    var child := Get(es, k);
    if child.Some? && child.value.Dict? then child.value.entries else Nil
  }

  lemma {:induction false} StartClean(es: Entries, k: string, at: Path)
    requires Clean(es) && NoListsIn(es)
    ensures Clean(Start(es, k)) && NoListsIn(Start(es, k))
    ensures Get(es, k).Some? ==> NoLists(Get(es, k).value)
    ensures (Get(es, k).Some? ==> Get(es, k).value.Dict?) ==>
              SpineOf(Get(es, k), at + [k]) == SpineOfEntries(Start(es, k), at + [k])
  {
    GetNoLists(es, k);
    if Get(es, k).Some? {
      GetClean(es, k);
    }
  }

  lemma {:induction false} InsertDescends(es: Entries, p: Path, x: int)
    requires |p| > 1 && Insert(es, p, Leaf(x)).Ok?
    ensures Get(es, p[0]).Some? ==> Get(es, p[0]).value.Dict?
    ensures var sub := Insert(Start(es, p[0]), p[1..], Leaf(x));
            sub.Ok? && Insert(es, p, Leaf(x)) == Ok(Put(es, p[0], Dict(sub.value)))
    ensures Below(es, p) == Below(Start(es, p[0]), p[1..])
  {}

  lemma {:induction false} InsertSpineLeavesBelow(es: Entries, p: Path, x: int, at: Path, full: Path)
    requires Clean(es) && NoListsIn(es) && |p| > 1 && full == at + p
    requires forall i :: 0 <= i < |p| ==> DotFree(p[i])
    requires Insert(es, p, Leaf(x)).Ok?
    requires NoListsIn(Insert(es, p, Leaf(x)).value)
    requires Below(es, p).Some? ==> NoLists(Below(es, p).value)
    ensures multiset(SpineOfEntries(Insert(es, p, Leaf(x)).value, at)) +
            multiset(SpineOf(Below(es, p), full)) ==
            multiset(SpineOfEntries(es, at)) + multiset{(full, x)}
    decreases |p|, 0
  {
    InsertDescends(es, p, x);
    StartClean(es, p[0], at);
    var sub := Insert(Start(es, p[0]), p[1..], Leaf(x)).value;
    assert full == at + [p[0]] + p[1..];
    InsertSpineLeaves(Start(es, p[0]), p[1..], x, at + [p[0]], full);
    SpineAbove(es, p[0], sub, at, multiset(SpineOf(Below(es, p), full)), multiset{(full, x)});
  }

  /** What changed in one child is what changed in the whole dict. */
  lemma {:induction false} SpineAbove(
      es: Entries, k: string, sub: Entries, at: Path, lost: multiset<(Path, int)>, added: multiset<(Path, int)>)
    requires NoListsIn(es) && NoListsIn(sub) && (Get(es, k).Some? ==> NoLists(Get(es, k).value))
    requires multiset(SpineOfEntries(sub, at + [k])) + lost == multiset(SpineOf(Get(es, k), at + [k])) + added
    ensures NoListsIn(Put(es, k, Dict(sub)))
    ensures multiset(SpineOfEntries(Put(es, k, Dict(sub)), at)) + lost == multiset(SpineOfEntries(es, at)) + added
  {
    PutSpine(es, k, Dict(sub), at);
    Exchange(multiset(SpineOfEntries(Put(es, k, Dict(sub)), at)), multiset(SpineOf(Get(es, k), at + [k])),
             multiset(SpineOfEntries(es, at)), multiset(SpineOfEntries(sub, at + [k])), lost, added);
  }

  lemma Exchange<T>(r: multiset<T>, c: multiset<T>, e: multiset<T>, s: multiset<T>, l: multiset<T>, x: multiset<T>)
    requires r + c == e + s && s + l == c + x
    ensures r + l == e + x
  {
    forall t ensures (r + l)[t] == (e + x)[t] {
      assert (r + c)[t] == (e + s)[t] && (s + l)[t] == (c + x)[t];
    }
  }

  /** Two paths clash when one is a prefix of the other. */
  predicate Clash(p: Path, q: Path) {
    p <= q || q <= p
  }

  ghost predicate Free(leaves: seq<(Path, int)>, p: Path) {
    forall i :: 0 <= i < |leaves| ==> !Clash(leaves[i].0, p)
  }

  /** Every leaf lies in the subtree under its first key. */
  lemma {:induction false} LeafUnderKey(es: Entries, at: Path, leaf: (Path, int))
    requires NoListsIn(es) && UniqueKeys(es) && leaf in SpineOfEntries(es, at)
    ensures at < leaf.0 && Get(es, leaf.0[|at|]).Some?
    ensures NoLists(Get(es, leaf.0[|at|]).value)
    ensures leaf in Spine(Get(es, leaf.0[|at|]).value, at + [leaf.0[|at|]])
  {
    SpineOfEntriesPaths(es, at);
    GetNoLists(es, leaf.0[|at|]);
    SpinePaths(es.value, at + [es.key]);
    if leaf !in Spine(es.value, at + [es.key]) {
      LeafUnderKey(es.rest, at, leaf);
    }
  }

  lemma {:induction false} KeyLeaves(es: Entries, k: string, at: Path)
    requires NoListsIn(es) && Get(es, k).Some? && NoLists(Get(es, k).value)
    ensures forall leaf :: leaf in Spine(Get(es, k).value, at + [k]) ==> leaf in SpineOfEntries(es, at)
  {
    if es.key != k {
      KeyLeaves(es.rest, k, at);
    }
  }

  lemma {:induction false} GetUnique(es: Entries, k: string)
    requires UniqueKeys(es) && Get(es, k).Some? && Get(es, k).value.Dict?
    ensures UniqueKeys(Get(es, k).value.entries)
  {
    if es.key != k {
      GetUnique(es.rest, k);
    }
  }

  lemma {:induction false} InsertUnique(es: Entries, p: Path, x: int)
    requires UniqueKeys(es) && |p| > 0 && Insert(es, p, Leaf(x)).Ok?
    ensures UniqueKeys(Insert(es, p, Leaf(x)).value)
    decreases |p|
  {
    if |p| == 1 {
      PutUnique(es, p[0], Leaf(x));
    } else {
      var child := Get(es, p[0]);
      if child.Some? {
        GetUnique(es, p[0]);
      }
      var start := if child.Some? then child.value.entries else Nil;
      InsertUnique(start, p[1..], x);
      PutUnique(es, p[0], Dict(Insert(start, p[1..], Leaf(x)).value));
    }
  }

  lemma {:induction false} PutUnique(es: Entries, k: string, v: Value)
    requires UniqueKeys(es) && (v.Dict? ==> UniqueKeys(v.entries))
    ensures UniqueKeys(Put(es, k, v))
  {
    if es.Cons? {
      PutUnique(es.rest, k, v);
      GetPut(es.rest, k, v, es.key);
    }
  }

  /** A fresh path never fails and never overwrites. */
  lemma {:induction false} InsertFree(es: Entries, p: Path, x: int, at: Path)
    requires Clean(es) && NoListsIn(es) && |p| > 0
    requires Free(SpineOfEntries(es, at), at + p)
    ensures Insert(es, p, Leaf(x)).Ok? && Below(es, p) == None
    decreases |p|
  {
    var child := Get(es, p[0]);
    if child == None {
      InsertIntoEmpty(p[1..], x);
    } else {
      GetNoLists(es, p[0]);
      GetClean(es, p[0]);
      KeyLeaves(es, p[0], at);
      var here: seq<(Path, int)> := Spine(child.value, at + [p[0]]);
      SpinePaths(child.value, at + [p[0]]);
      assert at + [p[0]] <= here[0].0;
      assert at + [p[0]] + p[1..] == at + p;
      assert |p| == 1 || child.value.Leaf? ==> Clash(here[0].0, at + p);
      forall i | 0 <= i < |here|
        ensures !Clash(here[i].0, at + p)
      {
        assert here[i] in here;
        assert here[i] in SpineOfEntries(es, at);
      }
      if |p| > 1 && child.value.Dict? {
        InsertFree(child.value.entries, p[1..], x, at + [p[0]]);
      }
    }
  }

  lemma {:induction false} InsertIntoEmpty(p: Path, x: int)
    ensures |p| > 0 ==> Insert(Nil, p, Leaf(x)).Ok?
    decreases |p|
  {
    if |p| > 1 {
      InsertIntoEmpty(p[1..], x);
    }
  }

  /** A path that clashes with a leaf either fails or overwrites. */
  lemma {:induction false} InsertClashing(es: Entries, p: Path, x: int, at: Path, leaf: (Path, int))
    requires Clean(es) && NoListsIn(es) && UniqueKeys(es) && |p| > 0
    requires leaf in SpineOfEntries(es, at) && Clash(leaf.0, at + p)
    ensures Insert(es, p, Leaf(x)).Err? || Below(es, p).Some?
    decreases |p|
  {
    LeafUnderKey(es, at, leaf);
    assert leaf.0[|at|] == (at + p)[|at|] == p[0];
    var child := Get(es, p[0]).value;
    if |p| > 1 && child.Dict? {
      GetClean(es, p[0]);
      GetUnique(es, p[0]);
      assert at + [p[0]] + p[1..] == at + p;
      InsertClashing(child.entries, p[1..], x, at + [p[0]], leaf);
    }
  }

  ghost predicate DotFreePaths(leaves: seq<(Path, int)>) {
    forall i :: 0 <= i < |leaves| ==>
      |leaves[i].0| > 0 && forall j :: 0 <= j < |leaves[i].0| ==> DotFree(leaves[i].0[j])
  }

  /** No two of the paths clash. */
  ghost predicate PrefixFree(leaves: seq<(Path, int)>) {
    forall i, j :: 0 <= i < j < |leaves| ==> !Clash(leaves[i].0, leaves[j].0)
  }

  /** Further insertions add at most one leaf each. */
  lemma {:induction false} InsertSpineCount(es: Entries, leaves: seq<(Path, int)>)
    requires Clean(es) && NoListsIn(es) && DotFreePaths(leaves)
    requires InsertSpine(es, leaves).Ok?
    ensures var r := InsertSpine(es, leaves).value;
            NoListsIn(r) && |SpineOfEntries(r, [])| <= |SpineOfEntries(es, [])| + |leaves|
    decreases |leaves|
  {
    if leaves != [] {
      var es' := Insert(es, leaves[0].0, Leaf(leaves[0].1)).value;
      InsertSpineLeaves(es, leaves[0].0, leaves[0].1, [], [] + leaves[0].0);
      CountOfInsert(es, leaves[0].0, leaves[0].1);
      InsertSpineCount(es', leaves[1..]);
    }
  }

  lemma {:induction false} CountOfInsert(es: Entries, p: Path, x: int)
    requires Clean(es) && NoListsIn(es) && |p| > 0
    requires forall i :: 0 <= i < |p| ==> DotFree(p[i])
    requires Insert(es, p, Leaf(x)).Ok?
    ensures var r := Insert(es, p, Leaf(x)).value;
            NoListsIn(r) &&
            |SpineOfEntries(r, [])| <= |SpineOfEntries(es, [])| + 1 &&
            (Below(es, p).Some? ==> |SpineOfEntries(r, [])| <= |SpineOfEntries(es, [])|)
  {
    InsertSpineLeaves(es, p, x, [], [] + p);
    BelowClean(es, p);
    var r := Insert(es, p, Leaf(x)).value;
    var lost: seq<(Path, int)> := SpineOf(Below(es, p), [] + p);
    if Below(es, p).Some? {
      SpinePaths(Below(es, p).value, [] + p);
      assert |lost| > 0;
    }
    assert |multiset(SpineOfEntries(r, [])) + multiset(lost)| ==
           |SpineOfEntries(r, [])| + |lost|;
    assert |multiset(SpineOfEntries(es, [])) + multiset{([] + p, x)}| ==
           |SpineOfEntries(es, [])| + 1;
  }

  /** Rebuilding from `es` keeps all its leaves and adds all the new ones. */
  ghost predicate Additive(es: Entries, leaves: seq<(Path, int)>)
    requires NoListsIn(es) && DotFreePaths(leaves)
  {
    var r := InsertSpine(es, leaves);
    && r.Ok? && NoListsIn(r.value)
    && multiset(SpineOfEntries(r.value, [])) == multiset(SpineOfEntries(es, [])) + multiset(leaves)
  }

  /** It does exactly when no paths clash. */
  lemma {:induction false} InsertSpineExact(es: Entries, leaves: seq<(Path, int)>)
    requires Clean(es) && NoListsIn(es) && UniqueKeys(es) && DotFreePaths(leaves)
    ensures InsertSpine(es, leaves).Ok? ==> NoListsIn(InsertSpine(es, leaves).value)
    ensures Additive(es, leaves) <==> PrefixFree(leaves) && AllFree(SpineOfEntries(es, []), leaves)
    decreases |leaves|, 1
  {
    if leaves != [] {
      var (p, x) := leaves[0];
      if Free(SpineOfEntries(es, []), p) {
        InsertFreeStep(es, leaves);
      } else {
        if InsertSpine(es, leaves).Ok? {
          InsertSpineCount(es, leaves);
          InsertLosing(es, leaves);
          assert |multiset(SpineOfEntries(es, [])) + multiset(leaves)| == |SpineOfEntries(es, [])| + |leaves|;
        }
      }
    }
  }

  lemma {:induction false} InsertFreeStep(es: Entries, leaves: seq<(Path, int)>)
    requires Clean(es) && NoListsIn(es) && UniqueKeys(es) && DotFreePaths(leaves)
    requires leaves != [] && Free(SpineOfEntries(es, []), leaves[0].0)
    ensures InsertSpine(es, leaves).Ok? ==> NoListsIn(InsertSpine(es, leaves).value)
    ensures Additive(es, leaves) <==> PrefixFree(leaves) && AllFree(SpineOfEntries(es, []), leaves)
    decreases |leaves|, 0
  {
    var (p, x) := leaves[0];
    var rest := leaves[1..];
    var es' := FreeInsertion(es, p, x);
    InsertSpineExact(es', rest);
    assert leaves == [(p, x)] + rest;
    FreeSplit(SpineOfEntries(es, []), SpineOfEntries(es', []), (p, x), rest);
    assert InsertSpine(es, leaves) == InsertSpine(es', rest);
  }

  lemma FreeInsertion(es: Entries, p: Path, x: int) returns (es': Entries)
    requires Clean(es) && NoListsIn(es) && UniqueKeys(es)
    requires |p| > 0 && forall i :: 0 <= i < |p| ==> DotFree(p[i])
    requires Free(SpineOfEntries(es, []), p)
    ensures Insert(es, p, Leaf(x)) == Ok(es')
    ensures Clean(es') && NoListsIn(es') && UniqueKeys(es')
    ensures multiset(SpineOfEntries(es', [])) == multiset(SpineOfEntries(es, [])) + multiset{(p, x)}
  {
    assert [] + p == p;
    InsertFree(es, p, x, []);
    es' := Insert(es, p, Leaf(x)).value;
    InsertSpineLeaves(es, p, x, [], [] + p);
    InsertUnique(es, p, x);
  }

  ghost predicate AllFree(spine: seq<(Path, int)>, leaves: seq<(Path, int)>) {
    forall i :: 0 <= i < |leaves| ==> Free(spine, leaves[i].0)
  }

  ghost predicate NoneClash(p: Path, leaves: seq<(Path, int)>) {
    forall i :: 0 <= i < |leaves| ==> !Clash(p, leaves[i].0)
  }

  lemma FreeAfter(prior: seq<(Path, int)>, after: seq<(Path, int)>, leaf: (Path, int), rest: seq<(Path, int)>)
    requires multiset(after) == multiset(prior) + multiset{leaf}
    ensures AllFree(after, rest) <==> AllFree(prior, rest) && NoneClash(leaf.0, rest)
  {
    forall i | 0 <= i < |rest|
      ensures Free(after, rest[i].0) <==> Free(prior, rest[i].0) && !Clash(leaf.0, rest[i].0)
    {
      FreeOfSum(after, prior, leaf, rest[i].0);
    }
  }

  lemma AllFreeCons(prior: seq<(Path, int)>, leaf: (Path, int), rest: seq<(Path, int)>)
    ensures AllFree(prior, [leaf] + rest) <==> Free(prior, leaf.0) && AllFree(prior, rest)
  {
    var leaves := [leaf] + rest;
    assert forall i :: 0 <= i < |rest| ==> leaves[i + 1] == rest[i];
    assert forall i :: 0 < i < |leaves| ==> leaves[i] == rest[i - 1];
    assert leaves[0] == leaf;
  }

  lemma FreeSplit(prior: seq<(Path, int)>, after: seq<(Path, int)>, leaf: (Path, int), rest: seq<(Path, int)>)
    requires multiset(after) == multiset(prior) + multiset{leaf} && Free(prior, leaf.0)
    ensures multiset(prior) + multiset([leaf] + rest) == multiset(after) + multiset(rest)
    ensures PrefixFree([leaf] + rest) && AllFree(prior, [leaf] + rest) <==> PrefixFree(rest) && AllFree(after, rest)
  {
    PrefixFreeCons(leaf, rest);
    AllFreeCons(prior, leaf, rest);
    FreeAfter(prior, after, leaf, rest);
  }

  lemma PrefixFreeCons(leaf: (Path, int), rest: seq<(Path, int)>)
    ensures PrefixFree([leaf] + rest) <==>
            PrefixFree(rest) && NoneClash(leaf.0, rest)
  {
    var leaves := [leaf] + rest;
    assert forall i :: 0 <= i < |rest| ==> leaves[i + 1] == rest[i];
    assert forall i :: 0 < i < |leaves| ==> leaves[i] == rest[i - 1];
    if PrefixFree(leaves) {
      forall i, j | 0 <= i < j < |rest| ensures !Clash(rest[i].0, rest[j].0) {
        assert leaves[i + 1] == rest[i] && leaves[j + 1] == rest[j];
      }
      forall i | 0 <= i < |rest| ensures !Clash(leaf.0, rest[i].0) {
        assert leaves[0] == leaf && leaves[i + 1] == rest[i];
      }
    } else {
      var i, j :| 0 <= i < j < |leaves| && Clash(leaves[i].0, leaves[j].0);
      assert leaves[j] == rest[j - 1];
    }
  }

  /** A first path that clashes costs at least one leaf. */
  lemma {:induction false} InsertLosing(es: Entries, leaves: seq<(Path, int)>)
    requires Clean(es) && NoListsIn(es) && UniqueKeys(es) && DotFreePaths(leaves)
    requires leaves != [] && !Free(SpineOfEntries(es, []), leaves[0].0)
    requires InsertSpine(es, leaves).Ok?
    ensures NoListsIn(InsertSpine(es, leaves).value)
    ensures |SpineOfEntries(InsertSpine(es, leaves).value, [])| < |SpineOfEntries(es, [])| + |leaves|
  {
    var (p, x) := leaves[0];
    var prior: seq<(Path, int)> := SpineOfEntries(es, []);
    var i :| 0 <= i < |prior| && Clash(prior[i].0, p);
    assert [] + p == p;
    assert prior[i] in prior;
    InsertClashing(es, p, x, [], prior[i]);
    CountOfInsert(es, p, x);
    InsertSpineLeaves(es, p, x, [], [] + p);
    InsertSpineCount(Insert(es, p, Leaf(x)).value, leaves[1..]);
  }

  lemma FreeOfSum(after: seq<(Path, int)>, prior: seq<(Path, int)>, leaf: (Path, int), q: Path)
    requires multiset(after) == multiset(prior) + multiset{leaf}
    ensures Free(after, q) <==> Free(prior, q) && !Clash(leaf.0, q)
  {
    if Free(after, q) {
      forall i | 0 <= i < |prior| ensures !Clash(prior[i].0, q) {
        assert prior[i] in multiset(prior);
        assert prior[i] in multiset(after);
        assert prior[i] in after;
      }
      assert leaf in multiset(after);
      assert leaf in after;
    } else {
      var i :| 0 <= i < |after| && Clash(after[i].0, q);
      assert after[i] in multiset(after);
      if after[i] != leaf {
        assert after[i] in multiset(prior);
        assert after[i] in prior;
      }
    }
  }

  function Join(segs: seq<string>): string
    requires |segs| > 0
  {
    if |segs| == 1 then segs[0] else segs[0] + "." + Join(segs[1..])
  }

  lemma {:induction false} JoinSplit(path: string)
    ensures Join(Split(path)) == path
  {
    if path != "" {
      JoinSplit(path[1..]);
      var tail := Split(path[1..]);
      if path[0] == '.' {
        assert ([""] + tail)[1..] == tail;
      } else {
        var segs := [[path[0]] + tail[0]] + tail[1..];
        assert segs[1..] == tail[1..];
        assert Join(segs) == [path[0]] + Join(tail);
      }
    }
  }

  lemma {:induction false} SplitAllCounts(pairs: seq<(string, int)>, pair: (string, int))
    ensures multiset(SplitAll(pairs))[(Split(pair.0), pair.1)] == multiset(pairs)[pair]
    decreases |pairs|
  {
    if pairs != [] {
      SplitAllCounts(pairs[1..], pair);
      assert pairs == [pairs[0]] + pairs[1..];
      SplitAllConcat([pairs[0]], pairs[1..]);
      assert SplitAll([pairs[0]]) == [(Split(pairs[0].0), pairs[0].1)];
      JoinSplit(pair.0);
      JoinSplit(pairs[0].0);
    }
  }

  lemma SplitAllPermutation(a: seq<(string, int)>, b: seq<(string, int)>)
    ensures multiset(a) == multiset(b) <==> multiset(SplitAll(a)) == multiset(SplitAll(b))
  {
    if multiset(SplitAll(a)) == multiset(SplitAll(b)) {
      forall pair: (string, int) ensures multiset(a)[pair] == multiset(b)[pair] {
        SplitAllCounts(a, pair);
        SplitAllCounts(b, pair);
      }
    } else if multiset(a) == multiset(b) {
      forall leaf: (Path, int) ensures multiset(SplitAll(a))[leaf] == multiset(SplitAll(b))[leaf] {
        if leaf in SplitAll(a) {
          var i :| 0 <= i < |a| && SplitAll(a)[i] == leaf;
          SplitAllCounts(a, a[i]);
          SplitAllCounts(b, a[i]);
        } else if leaf in SplitAll(b) {
          var i :| 0 <= i < |b| && SplitAll(b)[i] == leaf;
          SplitAllCounts(a, b[i]);
          SplitAllCounts(b, b[i]);
        }
      }
    }
  }

  /** Flattening the rebuilt object returns the same pairs, in some order. */
  ghost predicate Returns(flat: Entries)
    requires Scalars(flat)
  {
    var r := Reconstruct(flat);
    r.Ok? && multiset(LeavesOfEntries(r.value, "")) == multiset(Pairs(flat))
  }

  lemma {:induction false} InsertPairsUnique(es: Entries, pairs: seq<(string, int)>)
    requires UniqueKeys(es) && InsertSpine(es, SplitAll(pairs)).Ok?
    ensures UniqueKeys(InsertSpine(es, SplitAll(pairs)).value)
    decreases |pairs|
  {
    if pairs != [] {
      assert SplitAll(pairs)[1..] == SplitAll(pairs[1..]);
      InsertUnique(es, Split(pairs[0].0), pairs[0].1);
      InsertPairsUnique(Insert(es, Split(pairs[0].0), Leaf(pairs[0].1)).value, pairs[1..]);
    }
  }

  /**
   * A flat dict of scalars comes back from rebuilding, whatever its insertion order, exactly when
   * no path is a prefix of another and none starts with the separator.
   */
  lemma {:induction false} FlattenRebuilt(flat: Entries)
    requires Scalars(flat)
    ensures Returns(flat) <==> PrefixFree(SplitAll(Pairs(flat))) && NoLeadingDots(Pairs(flat))
  {
    var pairs := Pairs(flat);
    AsEntriesOfPairs(flat);
    InsertAllIsInsertSpine(Nil, pairs);
    forall i | 0 <= i < |pairs|
      ensures |SplitAll(pairs)[i].0| > 0 &&
              forall j :: 0 <= j < |SplitAll(pairs)[i].0| ==> DotFree(SplitAll(pairs)[i].0[j])
    {
      SplitDotFree(pairs[i].0);
    }
    InsertSpineExact(Nil, SplitAll(pairs));
    if Reconstruct(flat).Ok? {
      var r := Reconstruct(flat).value;
      InsertPairsClean(Nil, pairs);
      InsertPairsUnique(Nil, pairs);
      if NoLeadingDots(pairs) {
        LeavesOfEntriesSplit(r, "");
        SplitAllPermutation(LeavesOfEntries(r, ""), pairs);
      } else {
        LeavesOfEntriesHaveNoLeadingDot(r, "");
        var i :| 0 <= i < |pairs| && LeadingDot(pairs[i].0);
        assert pairs[i] in multiset(pairs);
        assert pairs[i] !in LeavesOfEntries(r, "");
      }
    }
  }
}
