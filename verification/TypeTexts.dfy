/** The text of every kind of schema, said on the schema's own keys (`scripts/generate_ai_docs.py`). */
module TypeTexts {
  import opened SchemaTypes
  import opened Wrappers

  // ---------------------------------------------------------------- text helpers

  /** The name of a reference is what follows its last slash, or all of it where there is none. */
  lemma {:induction false} RefNameExactly(ref: string, name: string)
    ensures RefName(ref) == name <==>
            '/' !in name && (ref == name || exists prefix: string :: ref == prefix + "/" + name)
    decreases |ref|
  {
    RefNameEnds(ref);
    if '/' !in name && ref == name {
      RefNameOfName(name);
    }
    if '/' !in name && exists prefix: string :: ref == prefix + "/" + name {
      var prefix: string :| ref == prefix + "/" + name;
      RefNameOfPath(prefix, name);
    }
  }

  lemma {:induction false} RefNameEnds(ref: string)
    ensures '/' !in RefName(ref)
    ensures ref == RefName(ref) || exists prefix: string :: ref == prefix + "/" + RefName(ref)
    decreases |ref|
  {
    if ref != "" {
      var front, last := Unsnoc(ref);
      assert ref[..|ref| - 1] == front;
      if last == '/' {
        assert ref == front + "/" + "";
      } else {
        RefNameEnds(front);
        if front != RefName(front) {
          var prefix: string :| front == prefix + "/" + RefName(front);
          assert ref == prefix + "/" + (RefName(front) + [last]);
        }
      }
    }
  }

  lemma {:induction false} RefNameOfName(name: string)
    requires '/' !in name
    ensures RefName(name) == name
    decreases |name|
  {
    if name != "" {
      var front, last := Unsnoc(name);
      assert name[..|name| - 1] == front;
      RefNameOfName(front);
    }
  }

  lemma {:induction false} RefNameOfPath(prefix: string, name: string)
    requires '/' !in name
    ensures RefName(prefix + "/" + name) == name
    decreases |name|
  {
    var ref := prefix + "/" + name;
    if name == "" {
      assert ref[|ref| - 1] == '/';
    } else {
      var front, last := Unsnoc(name);
      assert ref[..|ref| - 1] == prefix + "/" + front && ref[|ref| - 1] == last;
      RefNameOfPath(prefix, front);
    }
  }

  /** Joining puts the separator between neighbours and nowhere else. */
  lemma {:induction false} JoinConcat(a: seq<string>, b: seq<string>, sep: string)
    requires a != [] && b != []
    ensures Join(a + b, sep) == Join(a, sep) + sep + Join(b, sep)
    decreases |a|
  {
    assert (a + b)[1..] == a[1..] + b;
    if |a| > 1 {
      JoinConcat(a[1..], b, sep);
    } else {
      assert a[1..] + b == b;
    }
  }

  lemma JoinOne(part: string, sep: string)
    ensures Join([], sep) == "" && Join([part], sep) == part
  {}

  ghost predicate AreQuoted(names: seq<string>, quoted: seq<string>) {
    |quoted| == |names| && forall i :: 0 <= i < |names| ==> quoted[i] == "'" + names[i] + "'"
  }

  // ---------------------------------------------------------------- one kind of schema at a time

  /** An enumeration is shown by its type, if it has one. */
  lemma EnumText(s: Schema, defs: Definitions, rank: map<string, nat>, bound: nat, quoted: seq<string>)
    requires Acyclic(defs, rank) && Ranked(s, defs, rank, bound) && s.hasEnum
    requires s.typ.Many? ==> AreQuoted(s.typ.names, quoted)
    ensures Format(s, defs, rank, bound) ==
            if s.typ.One? && s.typ.name != "" then s.typ.name
            else if s.typ.Many? && s.typ.names != [] then "[" + Join(quoted, ", ") + "]"
            else "enum"
  {
    if s.typ.Many? {
      assert Quoted(s.typ.names) == quoted;
    }
  }

  /** The variants of a union: those of `anyOf`, or those of `oneOf` where it has none. */
  ghost predicate IsUnionOf(s: Schema, variants: seq<Schema>) {
    !s.hasEnum && variants != [] && (s.anyOf == variants || (s.anyOf == [] && s.oneOf == variants))
  }

  /** A union shows the different texts of its variants, in the order in which they first occur. */
  lemma UnionText(s: Schema, variants: seq<Schema>, defs: Definitions, rank: map<string, nat>, bound: nat,
                  texts: seq<string>)
    requires Acyclic(defs, rank) && Ranked(s, defs, rank, bound) && IsUnionOf(s, variants)
    requires |texts| == |variants|
    ensures forall i :: 0 <= i < |variants| ==> Ranked(variants[i], defs, rank, bound)
    ensures (forall i :: 0 <= i < |variants| ==> texts[i] == Format(variants[i], defs, rank, bound)) ==>
              Format(s, defs, rank, bound) == Join(Distinct(texts), " | ")
  {
    assert BranchOf(s) == Union(variants);
    if forall i :: 0 <= i < |variants| ==> texts[i] == Format(variants[i], defs, rank, bound) {
      assert FormatAll(s, variants, defs, rank, bound) == texts;
    }
  }

  /** A schema without enumeration and variants. */
  ghost predicate IsSimple(s: Schema) {
    !s.hasEnum && s.anyOf == [] && s.oneOf == []
  }

  /** A reference shows the definition that it names, or its name where there is none. */
  lemma ReferenceText(s: Schema, name: string, defs: Definitions, rank: map<string, nat>, bound: nat)
    requires Acyclic(defs, rank) && Ranked(s, defs, rank, bound) && IsSimple(s) && s.ref != ""
    requires '/' !in name && (s.ref == name || exists prefix: string :: s.ref == prefix + "/" + name)
    ensures name in defs ==> name in rank && Ranked(defs[name], defs, rank, rank[name])
    ensures Format(s, defs, rank, bound) ==
            if name in defs then Format(defs[name], defs, rank, rank[name]) else name
  {
    RefNameExactly(s.ref, name);
    assert BranchOf(s) == Reference(name);
  }

  /** An array shows its items, or `any`. */
  lemma ArrayText(s: Schema, defs: Definitions, rank: map<string, nat>, bound: nat)
    requires Acyclic(defs, rank) && Ranked(s, defs, rank, bound) && IsSimple(s) && s.ref == ""
    requires s.typ == One("array")
    ensures s.items.Some? ==> Ranked(s.items.value, defs, rank, bound)
    ensures Format(s, defs, rank, bound) ==
            if s.items.Some? then "array[" + Format(s.items.value, defs, rank, bound) + "]" else "array[any]"
  {
    assert BranchOf(s) == ArrayOf(s.items);
    assert "array[" + "any" + "]" == "array[any]";
  }

  /** An object shows the schema of its values, if it has one. */
  lemma ObjectText(s: Schema, defs: Definitions, rank: map<string, nat>, bound: nat)
    requires Acyclic(defs, rank) && Ranked(s, defs, rank, bound) && IsSimple(s) && s.ref == ""
    requires s.typ == One("object")
    ensures s.additional.Some? ==> Ranked(s.additional.value, defs, rank, bound)
    ensures Format(s, defs, rank, bound) ==
            if s.additional.Some? then "map[string, " + Format(s.additional.value, defs, rank, bound) + "]"
            else "object"
  {
    assert s.additional.Some? ==> BranchOf(s) == MapOf(s.additional.value);
  }

  /** Any other schema shows its types, or `any`. */
  lemma PlainText(s: Schema, defs: Definitions, rank: map<string, nat>, bound: nat)
    requires Acyclic(defs, rank) && Ranked(s, defs, rank, bound) && IsSimple(s) && s.ref == ""
    requires s.typ != One("array") && s.typ != One("object")
    ensures Format(s, defs, rank, bound) ==
            match s.typ
            case Absent => "any"
            case One(name) => name
            case Many(names) => Join(names, " | ")
  {}

  // ---------------------------------------------------------------- the first object schema

  ghost predicate IsObject(s: Schema) {
    s.typ == One("object") || s.hasProperties
  }

  /** The first variant in which an object schema is found, if there is one. */
  ghost predicate FoundFirst(variants: seq<Schema>, found: Option<Schema>) {
    || (found == None && forall i :: 0 <= i < |variants| ==> FindObject(variants[i]) == None)
    || exists i :: && 0 <= i < |variants| && found.Some? && FindObject(variants[i]) == found
                   && forall j :: 0 <= j < i ==> FindObject(variants[j]) == None
  }

  lemma {:induction false} FoundIn(parent: Schema, variants: seq<Schema>)
    requires forall i :: 0 <= i < |variants| ==> variants[i] < parent
    ensures FoundFirst(variants, FindObjectIn(parent, variants))
    decreases |variants|
  {
    if variants != [] && FindObject(variants[0]) == None {
      var rest := variants[1..];
      FoundIn(parent, rest);
      var found := FindObjectIn(parent, rest);
      assert forall i :: 0 <= i < |rest| ==> variants[i + 1] == rest[i];
      if found.Some? {
        var i :| && 0 <= i < |rest| && FindObject(rest[i]) == found
                 && forall j :: 0 <= j < i ==> FindObject(rest[j]) == None;
        assert FindObject(variants[i + 1]) == found;
        assert forall j :: 0 < j < i + 1 ==> variants[j] == rest[j - 1];
      } else {
        assert forall i :: 0 < i < |variants| ==> variants[i] == rest[i - 1];
      }
    }
  }

  /** A schema that is an object is found; otherwise the first found in `anyOf`, or else in `oneOf`. */
  lemma FindObjectExactly(s: Schema) returns (inAnyOf: Option<Schema>)
    ensures IsObject(s) ==> FindObject(s) == Some(s)
    ensures FoundFirst(s.anyOf, inAnyOf)
    ensures !IsObject(s) ==>
              if inAnyOf.Some? then FindObject(s) == inAnyOf else FoundFirst(s.oneOf, FindObject(s))
  {
    inAnyOf := FindObjectIn(s, s.anyOf);
    FoundIn(s, s.anyOf);
    FoundIn(s, s.oneOf);
  }
}
