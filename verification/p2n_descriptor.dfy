/**
 The entity descriptor of p2n.py (`create_pure_node_from_ifc_entity`): the
 attribute record of the node that stands for one entity instance.
 */
module P2nDescriptor {
  import opened IfcFile
  import opened NxGraph

  /** A node key: the STEP id, or a surrogate standing for one `str(uuid4())`. */
  datatype NodeKey = Native(id: nat) | Surrogate(token: nat)

  /** The values a node record holds, one constructor per kind of key. */
  datatype AttrValue =
    | KeyAttr(key: NodeKey)
    | TypeAttr(typeName: string)
    | LabelsAttr(labels: seq<string>)
    | FieldAttr(value: RawValue)

  type Record = Attrs<AttrValue>

  /** Stands for `uuid4()`: every token it hands out is one it never handed out before. */
  class SurrogateAllocator {
    var next: nat

    constructor (start: nat)
      ensures next == start
    {
      next := start;
    }

    method Fresh() returns (token: nat)
      modifies this
      ensures token == old(next) && next == old(next) + 1
    {
      token := next;
      next := next + 1;
    }
  }

  /** `e.id() if e.id() != 0 else str(uuid4())`, the allocator being at `next`. */
  function KeyOf(e: Entity, next: nat): NodeKey {
    if e.id != 0 then Native(e.id) else Surrogate(next)
  }

  /** The allocator's state after `KeyOf`. */
  function NextAfter(e: Entity, next: nat): nat {
    if e.id != 0 then next else next + 1
  }

  method ResolveKey(e: Entity, ids: SurrogateAllocator) returns (key: NodeKey)
    modifies ids
    ensures key == KeyOf(e, old(ids.next)) && ids.next == NextAfter(e, old(ids.next))
  {
    if e.id != 0 {
      key := Native(e.id);
    } else {
      var token := ids.Fresh();
      key := Surrogate(token);
    }
  }

  /** The types of `types_with_super()` that the entity `is_a`, in that order. */
  function SupertypeLabels(e: Entity, types: seq<string>): seq<string> {
    if types == [] then []
    else
      var last := types[|types| - 1];
      SupertypeLabels(e, types[..|types| - 1]) + (if IsA(e, last) then [last] else [])
  }

  function LabelsOf(e: Entity, types: seq<string>, hierarchy: bool): seq<string> {
    if hierarchy then SupertypeLabels(e, types) else [e.typeName]
  }

  /** The keys every record starts with. */
  function Header(e: Entity, types: seq<string>, hierarchy: bool, next: nat): Record {
    map["id" := KeyAttr(KeyOf(e, next)),
        "name" := TypeAttr(e.typeName),
        "labels" := LabelsAttr(LabelsOf(e, types, hierarchy))]
  }

  /** Writes, in field order, the raw value of every field whose kind is not compound or derived. */
  function WithPlainFields(r: Record, fields: seq<Field>): Record {
    if fields == [] then r
    else
      var f := fields[|fields| - 1];
      var before := WithPlainFields(r, fields[..|fields| - 1]);
      if f.arg.Plain? then before[f.name := FieldAttr(f.arg.value)] else before
  }

  /** The record `create_pure_node_from_ifc_entity` returns, the allocator being at `next`. */
  function Describe(e: Entity, types: seq<string>, hierarchy: bool, next: nat): Record {
    WithPlainFields(Header(e, types, hierarchy, next), e.fields)
  }

  /** The field sets key `k` of the record. */
  predicate WritesKey(f: Field, k: string) {
    f.arg.Plain? && f.name == k
  }

  function PlainNames(fields: seq<Field>): set<string> {
    set i | 0 <= i < |fields| && fields[i].arg.Plain? :: fields[i].name
  }

  /** `a` is what is left of `b` after deleting some of its elements (greedy match from the end). */
  predicate IsSubsequence<T(==)>(a: seq<T>, b: seq<T>)
    decreases |a| + |b|
  {
    if a == [] then true
    else if b == [] then false
    else if a[|a| - 1] == b[|b| - 1] then IsSubsequence(a[..|a| - 1], b[..|b| - 1])
    else IsSubsequence(a, b[..|b| - 1])
  }

  // ---------------------------------------------------------------------------
  // The descriptor, as the source computes it

  method CreatePureNode(e: Entity, d: Decoder, hierarchy: bool, ids: SurrogateAllocator)
    returns (node: Record)
    modifies ids
    ensures node == Describe(e, d.typesWithSuper, hierarchy, old(ids.next))
    ensures ids.next == NextAfter(e, old(ids.next))
  {
    var id := ResolveKey(e, ids);
    node := map["id" := KeyAttr(id), "name" := TypeAttr(e.typeName)];
    if hierarchy {
      var types := d.typesWithSuper;
      var labels := [];
      var t := 0;
      while t < |types|
        invariant 0 <= t <= |types|
        invariant labels == SupertypeLabels(e, types[..t])
      {
        assert types[..t + 1][..t] == types[..t];
        if IsA(e, types[t]) {
          labels := labels + [types[t]];
        }
        t := t + 1;
      }
      assert types[..t] == types;
      node := node["labels" := LabelsAttr(labels)];
    } else {
      node := node["labels" := LabelsAttr([e.typeName])];
    }
    var i := 0;
    while i < |e.fields|
      invariant 0 <= i <= |e.fields|
      invariant node == WithPlainFields(Header(e, d.typesWithSuper, hierarchy, old(ids.next)), e.fields[..i])
    {
      assert e.fields[..i + 1][..i] == e.fields[..i];
      var f := e.fields[i];
      match f.arg {
        case Plain(value) =>
          node := node[f.name := FieldAttr(value)];
        case _ =>
      }
      i := i + 1;
    }
    assert e.fields[..i] == e.fields;
  }

  // ---------------------------------------------------------------------------
  // Labels

  /** With hierarchy labelling, a type is a label exactly when it is in `types_with_super()` and the entity `is_a` it. */
  lemma {:induction false} SupertypeLabelsMembers(e: Entity, types: seq<string>)
    ensures forall x :: x in SupertypeLabels(e, types) <==> x in types && IsA(e, x)
  {
    if types != [] {
      var init := types[..|types| - 1];
      assert types == init + [types[|types| - 1]];
      SupertypeLabelsMembers(e, init);
    }
  }

  /** Each label occurs as often as it does in `types_with_super()`: nothing is merged or repeated. */
  lemma {:induction false} SupertypeLabelsCounts(e: Entity, types: seq<string>)
    ensures forall x :: multiset(SupertypeLabels(e, types))[x] == if IsA(e, x) then multiset(types)[x] else 0
  {
    if types != [] {
      var init, last := types[..|types| - 1], types[|types| - 1];
      assert types == init + [last];
      SupertypeLabelsCounts(e, init);
      assert multiset(types) == multiset(init) + multiset{last};
    }
  }

  /** The labels keep the order of `types_with_super()`. */
  lemma {:induction false} SupertypeLabelsOrdered(e: Entity, types: seq<string>)
    ensures IsSubsequence(SupertypeLabels(e, types), types)
  {
    if types != [] {
      var init, last := types[..|types| - 1], types[|types| - 1];
      SupertypeLabelsOrdered(e, init);
      var before := SupertypeLabels(e, init);
      if IsA(e, last) {
        assert (before + [last])[..|before + [last]| - 1] == before;
      } else if before != [] {
        SupertypeLabelsMembers(e, init);
        assert before[|before| - 1] in before;
        assert IsA(e, before[|before| - 1]) && before[|before| - 1] != last;
        assert SupertypeLabels(e, types) == before;
      }
    }
  }

  // ---------------------------------------------------------------------------
  // Field attributes

  lemma {:induction false} WithPlainFieldsKeys(r: Record, fields: seq<Field>)
    ensures WithPlainFields(r, fields).Keys == r.Keys + PlainNames(fields)
  {
    if fields != [] {
      var init, f := fields[..|fields| - 1], fields[|fields| - 1];
      WithPlainFieldsKeys(r, init);
      forall k | k in PlainNames(fields)
        ensures k in PlainNames(init) || (f.arg.Plain? && k == f.name)
      {
        var i :| 0 <= i < |fields| && fields[i].arg.Plain? && fields[i].name == k;
        if i < |init| {
          assert init[i] == fields[i];
        }
      }
      forall k | k in PlainNames(init)
        ensures k in PlainNames(fields)
      {
        var i :| 0 <= i < |init| && init[i].arg.Plain? && init[i].name == k;
        assert fields[i] == init[i];
      }
      if f.arg.Plain? {
        assert fields[|fields| - 1] == f;
      }
    }
  }

  lemma {:induction false} WithPlainFieldsLastWrite(r: Record, fields: seq<Field>, k: string, i: nat)
    requires i < |fields| && WritesKey(fields[i], k)
    requires forall j :: i < j < |fields| ==> !WritesKey(fields[j], k)
    ensures k in WithPlainFields(r, fields)
    ensures WithPlainFields(r, fields)[k] == FieldAttr(fields[i].arg.value)
  {
    var init := fields[..|fields| - 1];
    if i < |fields| - 1 {
      forall j | i < j < |init|
        ensures !WritesKey(init[j], k)
      {
        assert init[j] == fields[j];
      }
      WithPlainFieldsLastWrite(r, init, k, i);
    }
  }

  lemma {:induction false} WithPlainFieldsUntouched(r: Record, fields: seq<Field>, k: string)
    requires forall j :: 0 <= j < |fields| ==> !WritesKey(fields[j], k)
    ensures k in WithPlainFields(r, fields) <==> k in r
    ensures k in r ==> WithPlainFields(r, fields)[k] == r[k]
  {
    if fields != [] {
      var init := fields[..|fields| - 1];
      assert !WritesKey(fields[|fields| - 1], k);
      forall j | 0 <= j < |init|
        ensures !WritesKey(init[j], k)
      {
        assert init[j] == fields[j];
      }
      WithPlainFieldsUntouched(r, init, k);
    }
  }

  /**
   No compound leakage: the record's keys are `id`, `name`, `labels` and the
   names of the fields whose kind is not entity, aggregate of entity or
   derived, and every such field contributes its name.
   */
  lemma DescribeKeys(e: Entity, types: seq<string>, hierarchy: bool, next: nat)
    ensures Describe(e, types, hierarchy, next).Keys == {"id", "name", "labels"} + PlainNames(e.fields)
  {
    WithPlainFieldsKeys(Header(e, types, hierarchy, next), e.fields);
  }

  /** A plain field's raw value is what the record holds under its name, unless a later field of that name overwrites it. */
  lemma DescribeFieldValue(e: Entity, types: seq<string>, hierarchy: bool, next: nat, i: nat)
    requires i < |e.fields| && e.fields[i].arg.Plain?
    requires forall j :: i < j < |e.fields| ==> !WritesKey(e.fields[j], e.fields[i].name)
    ensures e.fields[i].name in Describe(e, types, hierarchy, next)
    ensures Describe(e, types, hierarchy, next)[e.fields[i].name] == FieldAttr(e.fields[i].arg.value)
  {
    WithPlainFieldsLastWrite(Header(e, types, hierarchy, next), e.fields, e.fields[i].name, i);
  }

  /**
   The header keys, where no field of the same name overwrites them: `id` is
   the node key (the STEP id when it is nonzero), `name` the concrete type,
   `labels` the concrete type alone or the hierarchy filter.
   */
  lemma DescribeHeader(e: Entity, types: seq<string>, hierarchy: bool, next: nat)
    ensures "id" in Describe(e, types, hierarchy, next) && "name" in Describe(e, types, hierarchy, next)
    ensures "labels" in Describe(e, types, hierarchy, next)
    ensures (forall j :: 0 <= j < |e.fields| ==> !WritesKey(e.fields[j], "id")) ==>
      && Describe(e, types, hierarchy, next)["id"] == KeyAttr(KeyOf(e, next))
      && (e.id != 0 ==> Describe(e, types, hierarchy, next)["id"] == KeyAttr(Native(e.id)))
      && (e.id == 0 ==> Describe(e, types, hierarchy, next)["id"] == KeyAttr(Surrogate(next)))
    ensures (forall j :: 0 <= j < |e.fields| ==> !WritesKey(e.fields[j], "name")) ==>
      Describe(e, types, hierarchy, next)["name"] == TypeAttr(e.typeName)
    ensures (forall j :: 0 <= j < |e.fields| ==> !WritesKey(e.fields[j], "labels")) ==>
      && (!hierarchy ==> Describe(e, types, hierarchy, next)["labels"] == LabelsAttr([e.typeName]))
      && (hierarchy ==> Describe(e, types, hierarchy, next)["labels"] == LabelsAttr(SupertypeLabels(e, types)))
  {
    var h := Header(e, types, hierarchy, next);
    DescribeKeys(e, types, hierarchy, next);
    if forall j :: 0 <= j < |e.fields| ==> !WritesKey(e.fields[j], "id") {
      WithPlainFieldsUntouched(h, e.fields, "id");
    }
    if forall j :: 0 <= j < |e.fields| ==> !WritesKey(e.fields[j], "name") {
      WithPlainFieldsUntouched(h, e.fields, "name");
    }
    if forall j :: 0 <= j < |e.fields| ==> !WritesKey(e.fields[j], "labels") {
      WithPlainFieldsUntouched(h, e.fields, "labels");
    }
  }

  /**
   The descriptor is deterministic for an entity with a STEP id: the
   allocator's state does not matter. For an id-0 entity two calls give two
   different `id` values.
   */
  lemma DescribeDeterministic(e: Entity, types: seq<string>, hierarchy: bool, next1: nat, next2: nat)
    ensures e.id != 0 ==> Describe(e, types, hierarchy, next1) == Describe(e, types, hierarchy, next2)
    ensures e.id == 0 && next1 != next2 && (forall j :: 0 <= j < |e.fields| ==> !WritesKey(e.fields[j], "id")) ==>
      Describe(e, types, hierarchy, next1) != Describe(e, types, hierarchy, next2)
  {
    if e.id == 0 && next1 != next2 && (forall j :: 0 <= j < |e.fields| ==> !WritesKey(e.fields[j], "id")) {
      DescribeHeader(e, types, hierarchy, next1);
      DescribeHeader(e, types, hierarchy, next2);
    }
  }
}
