/** Rendering JSON-schema types for the docs (`scripts/generate_ai_docs.py`). */
module SchemaTypes {
  import opened Wrappers

  datatype TypeField = Absent | One(name: string) | Many(names: seq<string>)

  /** The keys of a schema dict that the renderer looks at. */
  datatype Schema = Schema(
    hasEnum: bool,
    typ: TypeField,
    anyOf: seq<Schema>,
    oneOf: seq<Schema>,
    ref: string,
    items: Option<Schema>,
    additional: Option<Schema>,
    hasProperties: bool)

  type Definitions = map<string, Schema>

  // ---------------------------------------------------------------- text helpers

  function Join(parts: seq<string>, sep: string): string {
    if parts == [] then ""
    else if |parts| == 1 then parts[0]
    else parts[0] + sep + Join(parts[1..], sep)
  }

  /** The parts that differ, in first-seen order. */
  function Distinct(parts: seq<string>): seq<string> {
    if parts == [] then []
    else
      var front, part := Distinct(parts[..|parts| - 1]), parts[|parts| - 1];
      if part in front then front else front + [part]
  }

  /** `ref.rsplit("/", maxsplit=1)[-1]` */
  function RefName(ref: string): string {
    if ref == "" then ""
    else if ref[|ref| - 1] == '/' then ""
    else RefName(ref[..|ref| - 1]) + [ref[|ref| - 1]]
  }

  function Quoted(names: seq<string>): seq<string> {
    seq(|names|, i requires 0 <= i < |names| => "'" + names[i] + "'")
  }

  predicate Truthy(t: TypeField) {
    match t
    case Absent => false
    case One(name) => name != ""
    case Many(names) => names != []
  }

  /** `str(base_type)` */
  function TypeText(t: TypeField): string {
    match t
    case Absent => "None"
    case One(name) => name
    case Many(names) => "[" + Join(Quoted(names), ", ") + "]"
  }

  // ---------------------------------------------------------------- which branch is taken

  datatype Branch =
    | Enumerated
    | Union(variants: seq<Schema>)
    | Reference(name: string)
    | ArrayOf(items: Option<Schema>)
    | MapOf(values: Schema)
    | Plain(text: string)

  function BranchOf(s: Schema): Branch {
    if s.hasEnum then Enumerated
    else if s.anyOf != [] then Union(s.anyOf)
    else if s.oneOf != [] then Union(s.oneOf)
    else if s.ref != "" then Reference(RefName(s.ref))
    else match s.typ
      case Many(names) => Plain(Join(names, " | "))
      case One("array") => ArrayOf(s.items)
      case One("object") => if s.additional.Some? then MapOf(s.additional.value) else Plain("object")
      case One(name) => Plain(name)
      case Absent => Plain("any")
  }

  // ---------------------------------------------------------------- termination measure

  /** Every resolvable reference that rendering `s` reaches has a rank below `bound`. */
  ghost predicate Ranked(s: Schema, defs: Definitions, rank: map<string, nat>, bound: nat)
    decreases s
  {
    match BranchOf(s)
    case Union(variants) => forall i :: 0 <= i < |variants| ==> Ranked(variants[i], defs, rank, bound)
    case Reference(name) => name in defs ==> name in rank && rank[name] < bound
    case ArrayOf(items) => items.Some? ==> Ranked(items.value, defs, rank, bound)
    case MapOf(values) => Ranked(values, defs, rank, bound)
    case _ => true
  }

  /** The definitions are acyclic through their references, as the ranks witness. */
  ghost predicate Acyclic(defs: Definitions, rank: map<string, nat>) {
    forall name :: name in defs && name in rank ==> Ranked(defs[name], defs, rank, rank[name])
  }

  // ---------------------------------------------------------------- rendering

  /** The text of a type, by recursion on (rank of the last reference, schema). */
  ghost function Format(s: Schema, defs: Definitions, rank: map<string, nat>, bound: nat): string
    requires Acyclic(defs, rank) && Ranked(s, defs, rank, bound)
    decreases bound, s
  {
    match BranchOf(s)
    case Enumerated => if Truthy(s.typ) then TypeText(s.typ) else "enum"
    case Union(variants) => Join(Distinct(FormatAll(s, variants, defs, rank, bound)), " | ")
    case Reference(name) => if name in defs then Format(defs[name], defs, rank, rank[name]) else name
    case ArrayOf(items) =>
      "array[" + (if items.Some? then Format(items.value, defs, rank, bound) else "any") + "]"
    case MapOf(values) => "map[string, " + Format(values, defs, rank, bound) + "]"
    case Plain(text) => text
  }

  ghost function FormatAll(parent: Schema, variants: seq<Schema>, defs: Definitions, rank: map<string, nat>, bound: nat)
    : (texts: seq<string>)
    requires Acyclic(defs, rank)
    requires forall i :: 0 <= i < |variants| ==> variants[i] < parent && Ranked(variants[i], defs, rank, bound)
    ensures |texts| == |variants|
    ensures forall i :: 0 <= i < |texts| ==> texts[i] == Format(variants[i], defs, rank, bound)
    decreases bound, parent, 0, |variants|
  {
    if variants == [] then []
    else
      var n := |variants| - 1;
      FormatAll(parent, variants[..n], defs, rank, bound) + [Format(variants[n], defs, rank, bound)]
  }

  lemma {:induction false} DistinctNext(parts: seq<string>, i: nat)
    requires i < |parts|
    ensures Distinct(parts[..i + 1]) ==
            if parts[i] in Distinct(parts[..i]) then Distinct(parts[..i]) else Distinct(parts[..i]) + [parts[i]]
  {
    assert parts[..i + 1][..i] == parts[..i];
  }

  /** The loop over the variants of a union. */
  method CollectParts(ghost parent: Schema, variants: seq<Schema>, defs: Definitions,
                      ghost rank: map<string, nat>, ghost bound: nat, ghost texts: seq<string>)
    returns (parts: seq<string>)
    requires Acyclic(defs, rank) && |texts| == |variants|
    requires forall i :: 0 <= i < |variants| ==> variants[i] < parent && Ranked(variants[i], defs, rank, bound)
    requires forall i :: 0 <= i < |variants| ==> texts[i] == Format(variants[i], defs, rank, bound)
    ensures parts == Distinct(texts)
    decreases bound, parent, 0
  {
    parts := [];
    for i := 0 to |variants|
      invariant parts == Distinct(texts[..i])
    {
      var part := FormatType(variants[i], defs, rank, bound);
      DistinctNext(texts, i);
      if part !in parts {
        parts := parts + [part];
      }
    }
    assert texts[..|variants|] == texts;
  }

  method FormatUnion(s: Schema, variants: seq<Schema>, defs: Definitions, ghost rank: map<string, nat>, ghost bound: nat)
    returns (text: string)
    requires Acyclic(defs, rank) && Ranked(s, defs, rank, bound) && BranchOf(s) == Union(variants)
    ensures text == Format(s, defs, rank, bound)
    decreases bound, s, 1
  {
    var parts := CollectParts(s, variants, defs, rank, bound, FormatAll(s, variants, defs, rank, bound));
    return Join(parts, " | ");
  }

  /** `_format_type` */
  method FormatType(s: Schema, defs: Definitions, ghost rank: map<string, nat>, ghost bound: nat)
    returns (text: string)
    requires Acyclic(defs, rank) && Ranked(s, defs, rank, bound)
    ensures text == Format(s, defs, rank, bound)
    decreases bound, s, 2
  {
    if s.hasEnum {
      return if Truthy(s.typ) then TypeText(s.typ) else "enum";
    }
    if s.anyOf != [] || s.oneOf != [] {
      text := FormatUnion(s, if s.anyOf != [] then s.anyOf else s.oneOf, defs, rank, bound);
      return;
    }
    if s.ref != "" {
      var name := RefName(s.ref);
      if name in defs {
        text := FormatType(defs[name], defs, rank, rank[name]);
        return;
      }
      return name;
    }
    if s.typ.Many? {
      return Join(s.typ.names, " | ");
    }
    if s.typ == One("array") {
      var inner := "any";
      if s.items.Some? {
        inner := FormatType(s.items.value, defs, rank, bound);
      }
      return "array[" + inner + "]";
    }
    if s.typ == One("object") {
      if s.additional.Some? {
        var inner := FormatType(s.additional.value, defs, rank, bound);
        return "map[string, " + inner + "]";
      }
      return "object";
    }
    return if s.typ.One? then s.typ.name else "any";
  }

  // ---------------------------------------------------------------- union members

  function FirstSeen(parts: seq<string>, part: string): nat
    requires part in parts
  {
    if parts[0] == part then 0 else 1 + FirstSeen(parts[1..], part)
  }

  /** The members of a union: each different part once, by increasing first position. */
  lemma {:induction false} DistinctMeaning(parts: seq<string>)
    ensures forall part :: part in Distinct(parts) <==> part in parts
    ensures forall i, j :: 0 <= i < j < |Distinct(parts)| ==>
              FirstSeen(parts, Distinct(parts)[i]) < FirstSeen(parts, Distinct(parts)[j])
  {
    if parts != [] {
      var front, last := parts[..|parts| - 1], parts[|parts| - 1];
      DistinctMeaning(front);
      assert parts == front + [last];
      forall part | part in front
        ensures FirstSeen(parts, part) == FirstSeen(front, part) < |front|
      {
        FirstSeenFront(front, last, part);
      }
      if last !in front {
        FirstSeenLast(front, last);
      }
    }
  }

  lemma {:induction false} FirstSeenFront(front: seq<string>, last: string, part: string)
    requires part in front
    ensures FirstSeen(front + [last], part) == FirstSeen(front, part) < |front|
  {
    if front[0] != part {
      assert (front + [last])[1..] == front[1..] + [last];
      FirstSeenFront(front[1..], last, part);
    }
  }

  lemma {:induction false} FirstSeenLast(front: seq<string>, last: string)
    requires last !in front
    ensures FirstSeen(front + [last], last) == |front|
  {
    if front != [] {
      assert (front + [last])[1..] == front[1..] + [last];
      FirstSeenLast(front[1..], last);
    }
  }

  // ---------------------------------------------------------------- inlining references

  /** A schema with the parts that its branch renders replaced. */
  function Rebuild(s: Schema, b: Branch): Schema {
    match b
    case Union(variants) => if s.anyOf != [] then s.(anyOf := variants) else s.(oneOf := variants)
    case ArrayOf(items) => s.(items := items)
    case MapOf(values) => s.(additional := Some(values))
    case _ => s
  }

  predicate SameShape(b: Branch, b': Branch) {
    match b
    case Union(variants) => b'.Union? && |b'.variants| == |variants|
    case ArrayOf(_) => b'.ArrayOf?
    case MapOf(_) => b'.MapOf?
    case _ => b' == b
  }

  lemma RebuildBranch(s: Schema, b: Branch)
    requires SameShape(BranchOf(s), b)
    ensures BranchOf(Rebuild(s, b)) == b && Rebuild(s, b).typ == s.typ
  {}

  /** The branch of a schema with its parts inlined. */
  ghost function InlinedBranch(s: Schema, defs: Definitions, rank: map<string, nat>, bound: nat): (b: Branch)
    requires Acyclic(defs, rank) && Ranked(s, defs, rank, bound)
    ensures SameShape(BranchOf(s), b)
    ensures b.Union? ==> forall i :: 0 <= i < |b.variants| ==>
              b.variants[i] == Inline(BranchOf(s).variants[i], defs, rank, bound)
    decreases bound, s, 1
  {
    match BranchOf(s)
    case Union(variants) => Union(InlineAll(s, variants, defs, rank, bound))
    case ArrayOf(items) =>
      if items.Some? then ArrayOf(Some(Inline(items.value, defs, rank, bound))) else ArrayOf(None)
    case MapOf(values) => MapOf(Inline(values, defs, rank, bound))
    case _ => BranchOf(s)
  }

  /** The schema with every resolvable reference that rendering reaches replaced by its target. */
  ghost function Inline(s: Schema, defs: Definitions, rank: map<string, nat>, bound: nat): Schema
    requires Acyclic(defs, rank) && Ranked(s, defs, rank, bound)
    decreases bound, s, 2
  {
    if BranchOf(s).Reference? && BranchOf(s).name in defs
    then Inline(defs[BranchOf(s).name], defs, rank, rank[BranchOf(s).name])
    else Rebuild(s, InlinedBranch(s, defs, rank, bound))
  }

  ghost function InlineAll(parent: Schema, variants: seq<Schema>, defs: Definitions, rank: map<string, nat>, bound: nat)
    : (inlined: seq<Schema>)
    requires Acyclic(defs, rank)
    requires forall i :: 0 <= i < |variants| ==> variants[i] < parent && Ranked(variants[i], defs, rank, bound)
    ensures |inlined| == |variants|
    ensures forall i :: 0 <= i < |inlined| ==> inlined[i] == Inline(variants[i], defs, rank, bound)
    decreases bound, parent, 0, |variants|
  {
    if variants == [] then []
    else
      var n := |variants| - 1;
      InlineAll(parent, variants[..n], defs, rank, bound) + [Inline(variants[n], defs, rank, bound)]
  }

  /** Without definitions every schema is ranked and every reference is rendered by name. */
  lemma {:induction false} RankedWithoutDefinitions(s: Schema)
    ensures Acyclic(map[], map[]) && Ranked(s, map[], map[], 0)
    decreases s
  {
    match BranchOf(s)
    case Union(variants) =>
      forall i | 0 <= i < |variants| ensures Ranked(variants[i], map[], map[], 0) {
        RankedWithoutDefinitions(variants[i]);
      }
    case ArrayOf(items) =>
      if items.Some? {
        RankedWithoutDefinitions(items.value);
      }
    case MapOf(values) => RankedWithoutDefinitions(values);
    case _ =>
  }

  /** No resolvable reference is left where rendering would look. */
  ghost predicate Resolved(s: Schema, defs: Definitions)
    decreases s
  {
    match BranchOf(s)
    case Union(variants) => forall i :: 0 <= i < |variants| ==> Resolved(variants[i], defs)
    case Reference(name) => name !in defs
    case ArrayOf(items) => items.Some? ==> Resolved(items.value, defs)
    case MapOf(values) => Resolved(values, defs)
    case _ => true
  }

  /** The text of a schema rendered without any definitions. */
  ghost function Rendered(s: Schema): string {
    RankedWithoutDefinitions(s);
    Format(s, map[], map[], 0)
  }

  /** Inlining leaves no resolvable reference where rendering looks. */
  lemma {:induction false} InlineResolves(s: Schema, defs: Definitions, rank: map<string, nat>, bound: nat)
    requires Acyclic(defs, rank) && Ranked(s, defs, rank, bound)
    ensures Resolved(Inline(s, defs, rank, bound), defs)
    decreases bound, s
  {
    if !BranchOf(s).Reference? {
      RebuildBranch(s, InlinedBranch(s, defs, rank, bound));
    }
    match BranchOf(s)
    case Union(variants) =>
      forall i | 0 <= i < |variants| ensures Resolved(Inline(variants[i], defs, rank, bound), defs) {
        InlineResolves(variants[i], defs, rank, bound);
      }
    case Reference(name) =>
      if name in defs {
        InlineResolves(defs[name], defs, rank, rank[name]);
      }
    case ArrayOf(items) =>
      if items.Some? {
        InlineResolves(items.value, defs, rank, bound);
      }
    case MapOf(values) => InlineResolves(values, defs, rank, bound);
    case _ =>
  }

  /** Rendering with definitions is rendering the inlined schema without any. */
  lemma {:induction false} FormatIsFormatOfInlined(s: Schema, defs: Definitions, rank: map<string, nat>, bound: nat)
    requires Acyclic(defs, rank) && Ranked(s, defs, rank, bound)
    ensures Rendered(Inline(s, defs, rank, bound)) == Format(s, defs, rank, bound)
    decreases bound, s, 1
  {
    match BranchOf(s)
    case Union(_) => UnionIsUnionOfInlined(s, defs, rank, bound);
    case Reference(name) =>
      if name in defs {
        FormatIsFormatOfInlined(defs[name], defs, rank, rank[name]);
      }
    case ArrayOf(items) =>
      RebuildBranch(s, InlinedBranch(s, defs, rank, bound));
      RankedWithoutDefinitions(Inline(s, defs, rank, bound));
      if items.Some? {
        FormatIsFormatOfInlined(items.value, defs, rank, bound);
      }
    case MapOf(values) =>
      RebuildBranch(s, InlinedBranch(s, defs, rank, bound));
      RankedWithoutDefinitions(Inline(s, defs, rank, bound));
      FormatIsFormatOfInlined(values, defs, rank, bound);
    case _ =>
  }

  lemma {:induction false} UnionIsUnionOfInlined(s: Schema, defs: Definitions, rank: map<string, nat>, bound: nat)
    requires Acyclic(defs, rank) && Ranked(s, defs, rank, bound) && BranchOf(s).Union?
    ensures Rendered(Inline(s, defs, rank, bound)) == Format(s, defs, rank, bound)
    decreases bound, s, 0
  {
    var variants := BranchOf(s).variants;
    var members := InlinedBranch(s, defs, rank, bound).variants;
    RebuildBranch(s, InlinedBranch(s, defs, rank, bound));
    var inlined := Inline(s, defs, rank, bound);
    RankedWithoutDefinitions(inlined);
    forall i | 0 <= i < |variants|
      ensures Ranked(members[i], map[], map[], 0)
      ensures Rendered(members[i]) == Format(variants[i], defs, rank, bound)
    {
      RankedWithoutDefinitions(members[i]);
      FormatIsFormatOfInlined(variants[i], defs, rank, bound);
    }
    assert BranchOf(inlined) == Union(members);
    SameTexts(inlined, members, map[], map[], 0, s, variants, defs, rank, bound);
  }

  /** Variants that are rendered alike one by one have the same texts. */
  lemma {:induction false} SameTexts(s: Schema, variants: seq<Schema>, defs: Definitions, rank: map<string, nat>, bound: nat,
                  s': Schema, variants': seq<Schema>, defs': Definitions, rank': map<string, nat>, bound': nat)
    requires Acyclic(defs, rank) && Acyclic(defs', rank') && |variants| == |variants'|
    requires forall i :: 0 <= i < |variants| ==> variants[i] < s && Ranked(variants[i], defs, rank, bound)
    requires forall i :: 0 <= i < |variants'| ==> variants'[i] < s' && Ranked(variants'[i], defs', rank', bound')
    requires forall i :: 0 <= i < |variants| ==>
               Format(variants[i], defs, rank, bound) == Format(variants'[i], defs', rank', bound')
    ensures FormatAll(s, variants, defs, rank, bound) == FormatAll(s', variants', defs', rank', bound')
  {}

  /** The choice of ranks and bound only serves termination. */
  lemma {:induction false} RanksDoNotMatter(
      s: Schema, defs: Definitions, rank: map<string, nat>, bound: nat, rank': map<string, nat>, bound': nat)
    requires Acyclic(defs, rank) && Ranked(s, defs, rank, bound)
    requires Acyclic(defs, rank') && Ranked(s, defs, rank', bound')
    ensures Format(s, defs, rank, bound) == Format(s, defs, rank', bound')
    decreases bound, s
  {
    match BranchOf(s)
    case Union(variants) =>
      forall i | 0 <= i < |variants|
        ensures Format(variants[i], defs, rank, bound) == Format(variants[i], defs, rank', bound')
      {
        RanksDoNotMatter(variants[i], defs, rank, bound, rank', bound');
      }
      SameTexts(s, variants, defs, rank, bound, s, variants, defs, rank', bound');
    case Reference(name) =>
      if name in defs {
        RanksDoNotMatter(defs[name], defs, rank, rank[name], rank', rank'[name]);
      }
    case ArrayOf(items) =>
      if items.Some? {
        RanksDoNotMatter(items.value, defs, rank, bound, rank', bound');
      }
    case MapOf(values) => RanksDoNotMatter(values, defs, rank, bound, rank', bound');
    case _ =>
  }

  // ---------------------------------------------------------------- finding an object schema

  predicate ObjectLike(s: Schema) {
    s.typ == One("object") || s.hasProperties
  }

  /** `_find_object_schema` */
  function FindObject(s: Schema): Option<Schema>
    decreases s, 1
  {
    if ObjectLike(s) then Some(s)
    else
      var found := FindObjectIn(s, s.anyOf);
      if found.Some? then found else FindObjectIn(s, s.oneOf)
  }

  function FindObjectIn(ghost parent: Schema, variants: seq<Schema>): Option<Schema>
    requires forall i :: 0 <= i < |variants| ==> variants[i] < parent
    decreases parent, 0, |variants|
  {
    if variants == [] then None
    else
      var found := FindObject(variants[0]);
      if found.Some? then found else FindObjectIn(parent, variants[1..])
  }

  /** A schema followed by its nested variants, depth first, `anyOf` before `oneOf`. */
  function Variants(s: Schema): seq<Schema>
    decreases s, 1
  {
    [s] + VariantsIn(s, s.anyOf) + VariantsIn(s, s.oneOf)
  }

  function VariantsIn(ghost parent: Schema, variants: seq<Schema>): seq<Schema>
    requires forall i :: 0 <= i < |variants| ==> variants[i] < parent
    decreases parent, 0, |variants|
  {
    if variants == [] then [] else Variants(variants[0]) + VariantsIn(parent, variants[1..])
  }

  function FirstObject(schemas: seq<Schema>): Option<Schema> {
    if schemas == [] then None
    else if ObjectLike(schemas[0]) then Some(schemas[0])
    else FirstObject(schemas[1..])
  }

  lemma {:induction false} FirstObjectConcat(a: seq<Schema>, b: seq<Schema>)
    ensures FirstObject(a + b) == if FirstObject(a).Some? then FirstObject(a) else FirstObject(b)
  {
    if a == [] {
      assert a + b == b;
    } else {
      assert (a + b)[1..] == a[1..] + b;
      FirstObjectConcat(a[1..], b);
    }
  }

  /** The search returns the first object-like schema among the nested variants, if there is one. */
  lemma {:induction false} FindObjectIsFirst(s: Schema)
    ensures FindObject(s) == FirstObject(Variants(s))
    decreases s, 1
  {
    var a, b := VariantsIn(s, s.anyOf), VariantsIn(s, s.oneOf);
    FindObjectInIsFirst(s, s.anyOf);
    FindObjectInIsFirst(s, s.oneOf);
    FirstObjectConcat([s] + a, b);
    FirstObjectConcat([s], a);
    assert [s][1..] == [];
  }

  lemma {:induction false} FindObjectInIsFirst(parent: Schema, variants: seq<Schema>)
    requires forall i :: 0 <= i < |variants| ==> variants[i] < parent
    ensures FindObjectIn(parent, variants) == FirstObject(VariantsIn(parent, variants))
    decreases parent, 0, |variants|
  {
    if variants != [] {
      FindObjectIsFirst(variants[0]);
      FindObjectInIsFirst(parent, variants[1..]);
      FirstObjectConcat(Variants(variants[0]), VariantsIn(parent, variants[1..]));
    }
  }
}
