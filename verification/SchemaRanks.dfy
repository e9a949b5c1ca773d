/** Definitions without a `$ref` cycle are exactly those that can be ranked (`scripts/generate_ai_docs.py`). */
module SchemaRanks {
  import opened SchemaTypes

  /** Rendering the schema comes upon a reference to the name before it follows any reference. */
  ghost predicate Reaches(s: Schema, name: string)
    decreases s
  {
    match BranchOf(s)
    case Union(variants) => exists i :: 0 <= i < |variants| && Reaches(variants[i], name)
    case Reference(ref) => ref == name
    case ArrayOf(items) => items.Some? && Reaches(items.value, name)
    case MapOf(values) => Reaches(values, name)
    case _ => false
  }

  /** One definition refers to another. */
  ghost predicate Refers(defs: Definitions, a: string, b: string) {
    a in defs && b in defs && Reaches(defs[a], b)
  }

  ghost predicate Leads(defs: Definitions, path: seq<string>, i: nat)
    requires i + 1 < |path|
  {
    Refers(defs, path[i], path[i + 1])
  }

  ghost predicate IsPath(defs: Definitions, path: seq<string>) {
    forall i: nat {:trigger Leads(defs, path, i)} :: i + 1 < |path| ==> Leads(defs, path, i)
  }

  /** No chain of references leads from a definition back to it. */
  ghost predicate NoCycle(defs: Definitions) {
    forall path: seq<string> {:trigger IsPath(defs, path)} :: IsPath(defs, path) && |path| > 1 ==> path[0] != path[|path| - 1]
  }

  /** No chain of references within the names leads from one of them back to it. */
  ghost predicate NoCycleIn(defs: Definitions, names: set<string>) {
    forall path: seq<string> {:trigger IsPath(defs, path)} ::
      IsPath(defs, path) && |path| > 1 && (forall i :: 0 <= i < |path| ==> path[i] in names) ==>
        path[0] != path[|path| - 1]
  }

  /** References that rendering the schema follows one after the other. */
  ghost predicate Follows(defs: Definitions, s: Schema, path: seq<string>) {
    path != [] && path[0] in defs && Reaches(s, path[0]) && IsPath(defs, path)
  }

  ghost predicate Repeatless(path: seq<string>) {
    forall i, j :: 0 <= i < j < |path| ==> path[i] != path[j]
  }

  /** Rendering the schema never comes back to a definition that it is in the middle of. */
  ghost predicate NoCycleFrom(defs: Definitions, s: Schema) {
    forall path: seq<string> {:trigger Follows(defs, s, path)} :: Follows(defs, s, path) ==> Repeatless(path)
  }

  /** Ranks below a bound for all definitions, falling along every reference. */
  ghost predicate Ranks(defs: Definitions, rank: map<string, nat>, bound: nat) {
    && Acyclic(defs, rank)
    && (forall name :: name in defs ==> name in rank && rank[name] < bound)
  }

  // ---------------------------------------------------------------- ranks rule out cycles

  lemma {:induction false} RankedReaches(s: Schema, defs: Definitions, rank: map<string, nat>, bound: nat, name: string)
    requires Ranked(s, defs, rank, bound) && Reaches(s, name) && name in defs
    ensures name in rank && rank[name] < bound
    decreases s
  {
    match BranchOf(s)
    case Union(variants) =>
      var i :| 0 <= i < |variants| && Reaches(variants[i], name);
      RankedReaches(variants[i], defs, rank, bound, name);
    case ArrayOf(items) =>
      RankedReaches(items.value, defs, rank, bound, name);
    case MapOf(values) =>
      RankedReaches(values, defs, rank, bound, name);
    case _ =>
  }

  lemma {:induction false} RanksFall(defs: Definitions, rank: map<string, nat>, path: seq<string>)
    requires Acyclic(defs, rank) && IsPath(defs, path) && |path| > 1 && path[0] in rank
    ensures path[|path| - 1] in rank && rank[path[|path| - 1]] < rank[path[0]]
    decreases |path|
  {
    assert Leads(defs, path, 0);
    RankedReaches(defs[path[0]], defs, rank, rank[path[0]], path[1]);
    if |path| > 2 {
      SubPath(defs, path, 1, |path|);
      RanksFall(defs, rank, path[1..]);
    }
  }

  lemma SubPath(defs: Definitions, path: seq<string>, i: nat, j: nat)
    requires IsPath(defs, path) && i <= j <= |path|
    ensures IsPath(defs, path[i..j])
    ensures path[i..|path|] == path[i..]
  {
    var part := path[i..j];
    forall k: nat | k + 1 < |part| ensures Leads(defs, part, k) {
      assert Leads(defs, path, i + k);
    }
  }

  /** A chain that starts at a ranked reference meets only ranked definitions, each once. */
  lemma {:induction false} RankedFollows(
      s: Schema, defs: Definitions, rank: map<string, nat>, bound: nat, path: seq<string>, i: nat, j: nat)
    requires Acyclic(defs, rank) && Ranked(s, defs, rank, bound) && Follows(defs, s, path) && i < j < |path|
    ensures path[i] != path[j]
  {
    RankedReaches(s, defs, rank, bound, path[0]);
    SubPath(defs, path, 0, i + 1);
    if i > 0 {
      RanksFall(defs, rank, path[0..i + 1]);
    }
    SubPath(defs, path, i, j + 1);
    RanksFall(defs, rank, path[i..j + 1]);
  }

  lemma {:induction false} RankedRepeatless(
      s: Schema, defs: Definitions, rank: map<string, nat>, bound: nat, path: seq<string>)
    requires Acyclic(defs, rank) && Ranked(s, defs, rank, bound) && Follows(defs, s, path)
    ensures Repeatless(path)
  {
    forall i, j | 0 <= i < j < |path| ensures path[i] != path[j] {
      RankedFollows(s, defs, rank, bound, path, i, j);
    }
  }

  // ---------------------------------------------------------------- without cycles there are ranks

  lemma {:induction false} RankedBelow(s: Schema, defs: Definitions, rank: map<string, nat>, bound: nat)
    requires forall name :: Reaches(s, name) && name in defs ==> name in rank && rank[name] < bound
    ensures Ranked(s, defs, rank, bound)
    decreases s
  {
    match BranchOf(s)
    case Union(variants) =>
      forall i | 0 <= i < |variants| ensures Ranked(variants[i], defs, rank, bound) {
        RankedBelow(variants[i], defs, rank, bound);
      }
    case Reference(ref) =>
      assert Reaches(s, ref);
    case ArrayOf(items) =>
      if items.Some? {
        RankedBelow(items.value, defs, rank, bound);
      }
    case MapOf(values) =>
      RankedBelow(values, defs, rank, bound);
    case _ =>
  }

  ghost predicate IsSink(defs: Definitions, names: set<string>, a: string) {
    forall b :: Refers(defs, a, b) ==> b !in names
  }

  ghost predicate NoSinks(defs: Definitions, names: set<string>) {
    forall a {:trigger IsSink(defs, names, a)} :: a in names ==> !IsSink(defs, names, a)
  }

  lemma Successor(defs: Definitions, names: set<string>, a: string) returns (b: string)
    requires NoSinks(defs, names) && a in names
    ensures Refers(defs, a, b) && b in names
  {
    assert !IsSink(defs, names, a);
    b :| Refers(defs, a, b) && b in names;
  }

  lemma PathSnoc(defs: Definitions, path: seq<string>, front: seq<string>, b: string)
    requires path == front + [b] && front != [] && IsPath(defs, front) && Refers(defs, front[|front| - 1], b)
    ensures IsPath(defs, path)
  {
    forall i: nat | i + 1 < |path| ensures Leads(defs, path, i) {
      assert i + 1 < |front| ==> Leads(defs, front, i);
    }
  }

  /** Where every name refers to another of the set, there are paths of any length. */
  lemma {:induction false} LongPath(defs: Definitions, names: set<string>, n: nat) returns (path: seq<string>)
    requires names != {} && NoSinks(defs, names)
    ensures |path| == n + 1 && IsPath(defs, path) && forall i :: 0 <= i < |path| ==> path[i] in names
    decreases n
  {
    if n == 0 {
      var a :| a in names;
      path := [a];
    } else {
      var front := LongPath(defs, names, n - 1);
      var b := Successor(defs, names, front[|front| - 1]);
      path := front + [b];
      PathSnoc(defs, path, front, b);
    }
  }

  lemma {:induction false} Repeats(path: seq<string>, names: set<string>) returns (i: nat, j: nat)
    requires (forall k :: 0 <= k < |path| ==> path[k] in names) && |path| > |names|
    ensures i < j < |path| && path[i] == path[j]
    decreases |path|
  {
    var last := |path| - 1;
    var front := path[..last];
    if path[last] in front {
      i :| 0 <= i < |front| && front[i] == path[last];
      j := last;
    } else {
      i, j := Repeats(front, names - {path[last]});
    }
  }

  lemma NoRepeat(defs: Definitions, names: set<string>, path: seq<string>, i: nat, j: nat)
    requires NoCycleIn(defs, names) && IsPath(defs, path) && forall k :: 0 <= k < |path| ==> path[k] in names
    requires i < j < |path|
    ensures path[i] != path[j]
  {
    SubPath(defs, path, i, j + 1);
    var part := path[i..j + 1];
    assert part[0] == path[i] && part[|part| - 1] == path[j];
  }

  lemma SinkExists(defs: Definitions, names: set<string>) returns (a: string)
    requires NoCycleIn(defs, names) && names != {}
    ensures a in names && IsSink(defs, names, a)
  {
    if NoSinks(defs, names) {
      var path := LongPath(defs, names, |names|);
      var i, j := Repeats(path, names);
      NoRepeat(defs, names, path, i, j);
    }
    a :| a in names && IsSink(defs, names, a);
  }

  ghost predicate Closed(defs: Definitions, names: set<string>) {
    names <= defs.Keys && forall a, b :: a in names && Refers(defs, a, b) ==> b in names
  }

  /** Some definitions are ranked, and refer only to ranked definitions of lower rank. */
  ghost predicate Layered(defs: Definitions, rank: map<string, nat>, bound: nat) {
    && (forall a :: a in rank ==> rank[a] < bound)
    && (forall a, b :: a in rank && Refers(defs, a, b) ==> b in rank && rank[b] < rank[a])
  }

  lemma NoCycleInPart(defs: Definitions, names: set<string>, part: set<string>)
    requires NoCycleIn(defs, names) && part <= names
    ensures NoCycleIn(defs, part)
  {}

  /** A definition that refers to ranked ones only takes the next rank. */
  lemma OneMoreRank(defs: Definitions, names: set<string>, rank: map<string, nat>, bound: nat, a: string)
    requires Closed(defs, names) && Layered(defs, rank, bound) && rank.Keys <= names
    requires a in names && a !in rank && IsSink(defs, names - rank.Keys, a)
    ensures Layered(defs, rank[a := bound], bound + 1)
    ensures names - rank[a := bound].Keys == names - rank.Keys - {a}
  {}

  /** Names that refer only to one another are ranked from the sinks up. */
  lemma {:induction false} RankAll(defs: Definitions, names: set<string>, rank: map<string, nat>, bound: nat)
    returns (all: map<string, nat>, top: nat)
    requires Closed(defs, names) && NoCycleIn(defs, names) && Layered(defs, rank, bound) && rank.Keys <= names
    ensures Layered(defs, all, top) && all.Keys == names
    decreases |names - rank.Keys|
  {
    var rest := names - rank.Keys;
    if rest == {} {
      all, top := rank, bound;
    } else {
      NoCycleInPart(defs, names, rest);
      var a := SinkExists(defs, rest);
      OneMoreRank(defs, names, rank, bound, a);
      all, top := RankAll(defs, names, rank[a := bound], bound + 1);
    }
  }

  lemma LayeredAcyclic(defs: Definitions, rank: map<string, nat>, bound: nat)
    requires Layered(defs, rank, bound)
    ensures Acyclic(defs, rank)
  {
    forall name | name in defs && name in rank ensures Ranked(defs[name], defs, rank, rank[name]) {
      assert forall b :: Reaches(defs[name], b) && b in defs ==> Refers(defs, name, b);
      RankedBelow(defs[name], defs, rank, rank[name]);
    }
  }

  // ---------------------------------------------------------------- one schema

  /** The definitions that rendering the schema looks at. */
  ghost function Used(defs: Definitions, s: Schema): set<string> {
    set name | name in defs && exists path: seq<string> :: Follows(defs, s, path) && path[|path| - 1] == name
  }

  lemma {:induction false} UsedClosed(defs: Definitions, s: Schema)
    ensures Closed(defs, Used(defs, s))
    ensures forall name :: Reaches(s, name) && name in defs ==> name in Used(defs, s)
  {
    forall a, b | a in Used(defs, s) && Refers(defs, a, b) ensures b in Used(defs, s) {
      var path: seq<string> :| Follows(defs, s, path) && path[|path| - 1] == a;
      PathSnoc(defs, path + [b], path, b);
      assert Follows(defs, s, path + [b]);
    }
    forall name | Reaches(s, name) && name in defs ensures name in Used(defs, s) {
      assert Follows(defs, s, [name]) && [name][|[name]| - 1] == name;
    }
  }

  /** Two chains of references, the second from where the first ends. */
  lemma FollowsOn(defs: Definitions, s: Schema, path: seq<string>, more: seq<string>)
    requires Follows(defs, s, path) && IsPath(defs, more) && more != [] && path[|path| - 1] == more[0]
    ensures Follows(defs, s, path + more[1..])
  {
    var all := path + more[1..];
    forall i: nat | i + 1 < |all| ensures Leads(defs, all, i) {
      if i + 1 < |path| {
        assert Leads(defs, path, i);
      } else {
        assert Leads(defs, more, i + 1 - |path|);
      }
    }
  }

  lemma UsedHasNoCycle(defs: Definitions, s: Schema)
    requires NoCycleFrom(defs, s)
    ensures NoCycleIn(defs, Used(defs, s))
  {
    forall more: seq<string> | IsPath(defs, more) && |more| > 1 && more[0] in Used(defs, s)
      ensures more[0] != more[|more| - 1]
    {
      var path: seq<string> :| Follows(defs, s, path) && path[|path| - 1] == more[0];
      FollowsOn(defs, s, path, more);
      var all := path + more[1..];
      assert all[|path| - 1] == more[0] && all[|all| - 1] == more[|more| - 1];
    }
  }

  /** What rendering a schema asks for. */
  ghost predicate Renders(s: Schema, defs: Definitions, rank: map<string, nat>, bound: nat) {
    Acyclic(defs, rank) && Ranked(s, defs, rank, bound)
  }

  lemma RanksFor(s: Schema, defs: Definitions) returns (rank: map<string, nat>, bound: nat)
    requires NoCycleFrom(defs, s)
    ensures Renders(s, defs, rank, bound)
  {
    UsedClosed(defs, s);
    UsedHasNoCycle(defs, s);
    rank, bound := RankAll(defs, Used(defs, s), map[], 0);
    LayeredAcyclic(defs, rank, bound);
    RankedBelow(s, defs, rank, bound);
  }

  /**
   * Rendering a schema has the ranks that it needs if and only if it never comes back to a definition that it
   * is in the middle of, whatever other definitions there are.
   */
  lemma RenderableExactly(s: Schema, defs: Definitions)
    ensures (exists rank: map<string, nat>, bound: nat :: Renders(s, defs, rank, bound)) <==> NoCycleFrom(defs, s)
  {
    if NoCycleFrom(defs, s) {
      var rank, bound := RanksFor(s, defs);
    }
    if exists rank: map<string, nat>, bound: nat :: Renders(s, defs, rank, bound) {
      var rank: map<string, nat>, bound: nat :| Renders(s, defs, rank, bound);
      forall path: seq<string> | Follows(defs, s, path) ensures Repeatless(path) {
        RankedRepeatless(s, defs, rank, bound, path);
      }
    }
  }

  // ---------------------------------------------------------------- all definitions

  lemma NoCycleAtAll(defs: Definitions) returns (rank: map<string, nat>, bound: nat)
    requires NoCycle(defs)
    ensures Ranks(defs, rank, bound)
  {
    assert NoCycleIn(defs, defs.Keys);
    rank, bound := RankAll(defs, defs.Keys, map[], 0);
    LayeredAcyclic(defs, rank, bound);
  }

  /** Definitions can be ranked if and only if no chain of references leads back to where it started. */
  lemma RanksExactly(defs: Definitions)
    ensures (exists rank: map<string, nat>, bound: nat :: Ranks(defs, rank, bound)) <==> NoCycle(defs)
  {
    if NoCycle(defs) {
      var rank, bound := NoCycleAtAll(defs);
    }
    if exists rank: map<string, nat>, bound: nat :: Ranks(defs, rank, bound) {
      var rank: map<string, nat>, bound: nat :| Ranks(defs, rank, bound);
      forall path: seq<string> | IsPath(defs, path) && |path| > 1 ensures path[0] != path[|path| - 1] {
        assert Leads(defs, path, 0);
        RanksFall(defs, rank, path);
      }
    }
  }

  /** So without a cycle every schema meets what rendering asks for, under one bound. */
  lemma EverySchemaRanked(defs: Definitions) returns (rank: map<string, nat>, bound: nat)
    requires NoCycle(defs)
    ensures Acyclic(defs, rank) && forall s: Schema :: Ranked(s, defs, rank, bound)
  {
    rank, bound := NoCycleAtAll(defs);
    forall s: Schema ensures Ranked(s, defs, rank, bound) {
      RankedBelow(s, defs, rank, bound);
    }
  }
}
