/** `insert_obj_by_path` and `reconstruct_obj` on nested dicts that are mutated in place. */
module NestedDicts {
  import opened Wrappers
  import opened FlatObjects

  datatype Slot = Plain(value: Value) | Child(node: DictNode)

  function KeysOf(es: Entries): seq<string> {
    match es
    case Nil => []
    case Cons(k, _, rest) => [k] + KeysOf(rest)
  }

  lemma {:induction false} KeysOfPut(es: Entries, k: string, v: Value)
    ensures KeysOf(Put(es, k, v)) == if Get(es, k).Some? then KeysOf(es) else KeysOf(es) + [k]
  {
    if es.Cons? {
      KeysOfPut(es.rest, k, v);
    }
  }

  /** A dict object: its keys in insertion order and what each of them holds. */
  class DictNode {
    var keys: seq<string>
    var slots: map<string, Slot>
    ghost var model: Entries
    ghost var Repr: set<object>

    ghost predicate Holds(k: string)
      requires k in slots && this in Repr
      reads this, Repr
      decreases Repr, 0
    {
      match slots[k]
      case Plain(v) => !v.Dict? && Get(model, k) == Some(v)
      case Child(n) =>
        n in Repr && n.Repr <= Repr && this !in n.Repr &&
        n.Valid() && Get(model, k) == Some(Dict(n.model))
    }

    ghost predicate Valid()
      reads this, Repr
      decreases Repr, 1
    {
      this in Repr && KeysOf(model) == keys &&
      (forall k :: Get(model, k).Some? ==> k in slots) &&
      (forall k :: k in slots ==> Holds(k)) &&
      (forall j, k :: j in slots && k in slots && j != k && slots[j].Child? && slots[k].Child? ==>
         slots[j].node.Repr !! slots[k].node.Repr)
    }

    constructor ()
      ensures Valid() && fresh(Repr) && model == Nil
    {
      keys, slots, model, Repr := [], map[], Nil, {this};
    }

    /** `d[key] = v`, where a nested dict is a child object of its own. */
    method Assign(k: string, s: Slot)
      requires Valid()
      requires s.Plain? ==> !s.value.Dict?
      requires s.Child? ==> s.node.Valid() && s.node.Repr !! Repr
      modifies this
      ensures Valid()
      ensures Repr == old(Repr) + (if s.Child? then s.node.Repr else {})
      ensures model == Put(old(model), k, if s.Child? then Dict(s.node.model) else s.value)
    {
      ghost var v := if s.Child? then Dict(s.node.model) else s.value;
      PutModel(model, k, v);
      assert k in slots ==> Holds(k);
      if s.Child? {
        StoreChild(k, s.node, Put(model, k, v));
      } else {
        StorePlain(k, s.value, Put(model, k, v));
      }
    }

    /** The dict with one entry more, or another value at the key. */
    ghost predicate Extends(contents: Entries, k: string, v: Value)
      reads this
    {
      && KeysOf(contents) == (if k in slots then keys else keys + [k])
      && forall j :: Get(contents, j) == if j == k then Some(v) else Get(model, j)
    }

    method StorePlain(k: string, v: Value, ghost contents: Entries)
      requires Valid() && !v.Dict? && Extends(contents, k, v)
      modifies this
      ensures Valid() && Repr == old(Repr) && model == contents
    {
      keys, slots := if k in slots then keys else keys + [k], slots[k := Plain(v)];
      model := contents;
      forall j | j in slots && j != k ensures Holds(j) {
        assert old(Holds(j));
      }
    }

    method StoreChild(k: string, n: DictNode, ghost contents: Entries)
      requires Valid() && n.Valid() && n.Repr !! Repr && Extends(contents, k, Dict(n.model))
      modifies this
      ensures Valid() && Repr == old(Repr) + n.Repr && model == contents
    {
      keys, slots := if k in slots then keys else keys + [k], slots[k := Child(n)];
      model, Repr := contents, Repr + n.Repr;
      forall j | j in slots && j != k ensures Holds(j) {
        assert old(Holds(j));
      }
    }

    /** Descend with `setdefault`, then assign; on a non-mapping nothing has changed. */
    method InsertByPath(segs: seq<string>, v: Value) returns (ok: bool)
      requires Valid() && |segs| > 0
      requires v.Dict? ==> UniqueKeys(v.entries)
      modifies Repr
      ensures Valid() && fresh(Repr - old(Repr))
      ensures ok <==> Insert(old(model), segs, v).Ok?
      ensures model == if ok then Insert(old(model), segs, v).value else old(model)
      decreases |segs|, 0
    {
      var k := segs[0];
      if |segs| == 1 {
        if v.Dict? {
          var n := FromEntries(v.entries);
          Assign(k, Child(n));
        } else {
          Assign(k, Plain(v));
        }
        return true;
      }
      if k in slots {
        assert Holds(k);
        if slots[k].Plain? {
          return false;
        }
        ok := InsertIntoChild(k, segs[1..], v);
      } else {
        assert Get(model, k) == None;
        var n := new DictNode();
        ok := n.InsertByPath(segs[1..], v);
        InsertIntoNothing(segs[1..], v);
        Assign(k, Child(n));
      }
    }

    /** The descent into an existing child object, which the siblings do not notice. */
    method InsertIntoChild(k: string, segs: seq<string>, v: Value) returns (ok: bool)
      requires Valid() && |segs| > 0
      requires v.Dict? ==> UniqueKeys(v.entries)
      requires k in slots && slots[k].Child?
      modifies Repr
      ensures Valid() && fresh(Repr - old(Repr))
      ensures Get(old(model), k).Some? && Get(old(model), k).value.Dict?
      ensures var sub := Insert(Get(old(model), k).value.entries, segs, v);
              (ok <==> sub.Ok?) && model == if ok then Put(old(model), k, Dict(sub.value)) else old(model)
      decreases |segs|, 1
    {
      var n := slots[k].node;
      assert Holds(k);
      ok := n.InsertByPath(segs, v);
      PutSame(model, k);
      PutModel(model, k, Dict(n.model));
      forall j | j in slots && j != k
        ensures Holds(j) && ApartFrom(j, n)
        ensures slots[j].Child? ==> slots[j].node.Repr == old(slots[j].node.Repr)
      {
        assert old(Holds(j));
        if slots[j].Child? {
          assert old(slots[j].node.Repr !! slots[k].node.Repr);
          assert old(slots[j].node.Valid());
        }
      }
      Refresh(k, n, Put(model, k, Dict(n.model)));
    }

    ghost predicate ApartFrom(j: string, n: DictNode)
      requires j in slots && this in Repr && Holds(j)
      reads this, Repr, n
    {
      slots[j].Child? ==> slots[j].node.Repr !! n.Repr
    }

    /** The contents follow a child that has changed. */
    ghost method Refresh(k: string, n: DictNode, contents: Entries)
      requires this in Repr && k in slots && slots[k] == Child(n) && n.Valid() && this !in n.Repr
      requires KeysOf(model) == keys && Extends(contents, k, Dict(n.model))
      requires forall j :: Get(model, j).Some? ==> j in slots
      requires forall j :: j in slots && j != k ==> Holds(j) && ApartFrom(j, n)
      requires forall i, j :: i in slots && j in slots && i != j && i != k && j != k && slots[i].Child? && slots[j].Child? ==>
                 slots[i].node.Repr !! slots[j].node.Repr
      modifies this
      ensures Valid() && Repr == old(Repr) + n.Repr && model == contents
      ensures keys == old(keys) && slots == old(slots)
    {
      model, Repr := contents, Repr + n.Repr;
      forall j | j in slots && j != k ensures Holds(j) {
        assert old(Holds(j));
      }
    }
  }

  lemma {:induction false} PutModel(es: Entries, k: string, v: Value)
    ensures KeysOf(Put(es, k, v)) == if Get(es, k).Some? then KeysOf(es) else KeysOf(es) + [k]
    ensures forall j :: Get(Put(es, k, v), j) == if j == k then Some(v) else Get(es, j)
  {
    KeysOfPut(es, k, v);
    forall j ensures Get(Put(es, k, v), j) == if j == k then Some(v) else Get(es, j) {
      GetPut(es, k, v, j);
    }
  }

  lemma {:induction false} PutSame(es: Entries, k: string)
    requires Get(es, k).Some?
    ensures Put(es, k, Get(es, k).value) == es
  {
    if es.key != k {
      PutSame(es.rest, k);
    }
  }

  /** A fresh dict object with the given contents. */
  method FromEntries(es: Entries) returns (n: DictNode)
    requires UniqueKeys(es)
    ensures n.Valid() && fresh(n.Repr) && n.model == es
    decreases es, 1
  {
    n := new DictNode();
    Fill(n, es);
  }

  method Fill(n: DictNode, es: Entries)
    requires n.Valid() && UniqueKeys(es)
    requires forall k :: Get(es, k).Some? ==> Get(n.model, k) == None
    modifies n
    ensures n.Valid() && fresh(n.Repr - old(n.Repr))
    ensures n.model == Concat(old(n.model), es)
    decreases es, 0
  {
    ConcatAssoc(n.model, Nil, Nil);
    match es
    case Nil =>
    case Cons(k, v, rest) =>
      assert Get(es, k).Some?;
      PutFresh(n.model, k, v);
      ConcatAssoc(n.model, Cons(k, v, Nil), rest);
      forall j | Get(rest, j).Some? ensures Get(Put(n.model, k, v), j) == None {
        assert Get(es, j).Some?;
        GetPut(n.model, k, v, j);
      }
      if v.Dict? {
        var child := FromEntries(v.entries);
        n.Assign(k, Child(child));
      } else {
        n.Assign(k, Plain(v));
      }
      Fill(n, rest);
  }

  predicate UniqueInside(flat: Entries) {
    match flat
    case Nil => true
    case Cons(_, v, rest) => (Unwrap(v).Dict? ==> UniqueKeys(Unwrap(v).entries)) && UniqueInside(rest)
  }

  /** `reconstruct_obj`: insert every path of the flat dict into one fresh object. */
  method ReconstructObj(flat: Entries) returns (obj: DictNode, ok: bool)
    requires UniqueInside(flat)
    ensures obj.Valid() && fresh(obj.Repr)
    ensures ok <==> Reconstruct(flat).Ok?
    ensures ok ==> obj.model == Reconstruct(flat).value
  {
    obj := new DictNode();
    var rest := flat;
    while rest.Cons?
      invariant obj.Valid() && fresh(obj.Repr) && UniqueInside(rest)
      invariant InsertAll(obj.model, rest) == Reconstruct(flat)
      decreases rest
    {
      ok := obj.InsertByPath(Split(rest.key), Unwrap(rest.value));
      if !ok {
        return;
      }
      rest := rest.rest;
    }
    ok := true;
  }

  lemma {:induction false} InsertIntoNothing(segs: seq<string>, v: Value)
    requires |segs| > 0
    ensures Insert(Nil, segs, v).Ok?
    decreases |segs|
  {
    if |segs| > 1 {
      InsertIntoNothing(segs[1..], v);
    }
  }
}
