/**
 The graph materializer of p2n.py (`create_graph_from_ifc_entity_all` and
 `create_full_graph`): the node of every entity of the file, and an edge for
 every followed reference, every aggregate member and every inverse-role
 member, inserted into one networkx graph.
 */
module P2nMaterializer {
  import opened IfcFile
  import opened NxGraph
  import opened P2nDescriptor

  type NodeGraph = GraphValue<NodeKey, AttrValue>

  /** One neighbour insertion: `add_node(key, **attrs)`, then `add_edge(self, key, type=edgeType)`. */
  datatype Link = Link(key: NodeKey, attrs: Record, edgeType: string)

  /** The insertions of one step, in order, and the allocator's state after it. */
  datatype Batch = Batch(links: seq<Link>, next: nat)

  datatype Built = Built(graph: NodeGraph, next: nat)

  const OwnerHistoryTypes: seq<string> := ["IfcOwnerHistory"]
  const ProjectType: string := "IfcProject"

  /** A reference to an owner history is dropped unless it is the project's. */
  predicate SkipsOwnerHistory(source: Entity, target: Entity) {
    target.typeName in OwnerHistoryTypes && source.typeName != ProjectType
  }

  /** The key and descriptor of one neighbour, each drawing a surrogate when its id is 0. */
  function Neighbor(types: seq<string>, target: Entity, edgeType: string, next: nat): Batch {
    var afterKey := NextAfter(target, next);
    Batch([Link(KeyOf(target, next), Describe(target, types, true, afterKey), edgeType)],
          NextAfter(target, afterKey))
  }

  function NeighborLinks(types: seq<string>, targets: seq<Entity>, edgeType: string, next: nat): Batch {
    if targets == [] then Batch([], next)
    else
      var before := NeighborLinks(types, targets[..|targets| - 1], edgeType, next);
      var last := Neighbor(types, targets[|targets| - 1], edgeType, before.next);
      Batch(before.links + last.links, last.next)
  }

  /** The members of an aggregate, as instances. */
  function Targets(d: Decoder, ms: seq<Handle>): (ts: seq<Entity>)
    requires forall m :: m in ms ==> m in d.store
    ensures |ts| == |ms| && forall i :: 0 <= i < |ms| ==> ts[i] == d.store[ms[i]]
  {
    seq(|ms|, i requires 0 <= i < |ms| => d.store[ms[i]])
  }

  /** The members of an inverse role, each replaced by `by_id(member.id())`. */
  function Canonical(d: Decoder, ws: seq<Handle>): (ts: seq<Entity>)
    requires d.MembersResolve(ws)
    ensures |ts| == |ws| && forall i :: 0 <= i < |ws| ==> ts[i] == d.store[d.byId[d.store[ws[i]].id]]
  {
    seq(|ws|, i requires 0 <= i < |ws| => d.store[d.byId[d.store[ws[i]].id]])
  }

  /**
   In a well-formed file the `by_id` lookup of p2n.py:70 gives back the very
   instance the inverse role holds.
   */
  lemma CanonicalIsTargets(d: Decoder, ws: seq<Handle>)
    requires d.Valid() && d.MembersResolve(ws)
    ensures Canonical(d, ws) == Targets(d, ws)
  {
    forall i | 0 <= i < |ws|
      ensures Canonical(d, ws)[i] == Targets(d, ws)[i]
    {
      assert d.InFile(d.store[ws[i]]);
    }
  }

  /** What one positional field contributes (p2n.py:51-65). */
  function FieldLinks(d: Decoder, source: Entity, f: Field, next: nat): Batch
    requires d.ArgResolves(f.arg)
  {
    match f.arg
    case Instance(Some(t)) =>
      if SkipsOwnerHistory(source, d.store[t]) then Batch([], next)
      else Neighbor(d.typesWithSuper, d.store[t], f.name, next)
    case InstanceAggregate(Some(ms)) => NeighborLinks(d.typesWithSuper, Targets(d, ms), f.name, next)
    case _ => Batch([], next)
  }

  /** What the first `count` positional fields contribute, in field order. */
  function ForwardLinks(d: Decoder, source: Entity, fields: seq<Field>, count: nat, next: nat): Batch
    requires d.FieldsResolve(fields) && count <= |fields|
  {
    if count == 0 then Batch([], next)
    else
      var before := ForwardLinks(d, source, fields, count - 1, next);
      var last := FieldLinks(d, source, fields[count - 1], before.next);
      Batch(before.links + last.links, last.next)
  }

  /** What one inverse role contributes (p2n.py:67-74). */
  function RoleLinks(d: Decoder, r: InverseRole, next: nat): Batch
    requires d.MembersResolve(r.members)
  {
    NeighborLinks(d.typesWithSuper, Canonical(d, r.members), r.role, next)
  }

  /** What the first `count` inverse roles contribute, in role order. */
  function InverseLinks(d: Decoder, roles: seq<InverseRole>, count: nat, next: nat): Batch
    requires d.InversesResolve(roles) && count <= |roles|
  {
    if count == 0 then Batch([], next)
    else
      var before := InverseLinks(d, roles, count - 1, next);
      var last := RoleLinks(d, roles[count - 1], before.next);
      Batch(before.links + last.links, last.next)
  }

  /** The graph after the insertions of `links`, made from the node `self`. */
  function AttachAll(g: NodeGraph, self: NodeKey, links: seq<Link>): NodeGraph {
    if links == [] then g
    else
      var l := links[|links| - 1];
      var before := AttachAll(g, self, links[..|links| - 1]);
      AddEdgeTo(AddNodeTo(before, l.key, l.attrs), self, l.key, l.edgeType)
  }

  /** `create_graph_from_ifc_entity_all(graph, e, ifc_file)` on the graph `g`, the allocator at `next`. */
  function EntityGraph(g: NodeGraph, d: Decoder, e: Entity, next: nat): Built
    requires d.Resolves(e)
  {
    var key := KeyOf(e, next);
    var afterKey := NextAfter(e, next);
    var record := Describe(e, d.typesWithSuper, true, afterKey);
    var forward := ForwardLinks(d, e, e.fields, |e.fields|, NextAfter(e, afterKey));
    var inverse := InverseLinks(d, e.inverses, |e.inverses|, forward.next);
    Built(AttachAll(AddNodeTo(g, key, record), key, forward.links + inverse.links), inverse.next)
  }

  /** `create_full_graph` over the ids `names`, in that order. */
  function FullGraph(g: NodeGraph, d: Decoder, names: seq<nat>, next: nat): Built
    requires d.Valid() && forall x :: x in names ==> x in d.byId
  {
    if names == [] then Built(g, next)
    else
      var before := FullGraph(g, d, names[..|names| - 1], next);
      EntityGraph(before.graph, d, d.ById(names[|names| - 1]), before.next)
  }

  // ---------------------------------------------------------------------------
  // The materializer, as the source runs it

  /** p2n.py:56-59, 62-65 and 71-74: insert one neighbour and the edge to it. */
  method AddNeighbor(g: Graph<NodeKey, AttrValue>, d: Decoder, self: NodeKey, target: Entity,
                     edgeType: string, ids: SurrogateAllocator)
    modifies g, ids
    ensures var b := Neighbor(d.typesWithSuper, target, edgeType, old(ids.next));
      g.Value() == AttachAll(old(g.Value()), self, b.links) && ids.next == b.next
  {
    var subNodeId := ResolveKey(target, ids);
    var subNodeData := CreatePureNode(target, d, true, ids);
    g.AddNode(subNodeId, subNodeData);
    g.AddEdge(self, subNodeId, edgeType);
    ghost var b := Neighbor(d.typesWithSuper, target, edgeType, old(ids.next));
    assert b.links[..0] == [];
  }

  /** Every one of `targets`, in order, as a neighbour reached through `edgeType`. */
  method AddNeighbors(g: Graph<NodeKey, AttrValue>, d: Decoder, self: NodeKey, targets: seq<Entity>,
                      edgeType: string, ids: SurrogateAllocator)
    modifies g, ids
    ensures var b := NeighborLinks(d.typesWithSuper, targets, edgeType, old(ids.next));
      g.Value() == AttachAll(old(g.Value()), self, b.links) && ids.next == b.next
  {
    var j := 0;
    while j < |targets|
      invariant 0 <= j <= |targets|
      invariant var b := NeighborLinks(d.typesWithSuper, targets[..j], edgeType, old(ids.next));
        g.Value() == AttachAll(old(g.Value()), self, b.links) && ids.next == b.next
    {
      ghost var before := NeighborLinks(d.typesWithSuper, targets[..j], edgeType, old(ids.next));
      assert targets[..j + 1][..j] == targets[..j];
      AddNeighbor(g, d, self, targets[j], edgeType, ids);
      AttachAllAppend(old(g.Value()), self, before.links,
                      Neighbor(d.typesWithSuper, targets[j], edgeType, before.next).links);
      j := j + 1;
    }
    assert targets[..j] == targets;
  }

  /** p2n.py:51-65 for one field: follow a reference unless it is filtered, or expand an aggregate. */
  method AddFieldEdges(g: Graph<NodeKey, AttrValue>, d: Decoder, e: Entity, nodeId: NodeKey, f: Field,
                       ids: SurrogateAllocator)
    requires d.ArgResolves(f.arg)
    modifies g, ids
    ensures var b := FieldLinks(d, e, f, old(ids.next));
      g.Value() == AttachAll(old(g.Value()), nodeId, b.links) && ids.next == b.next
  {
    match f.arg {
      case Instance(Some(t)) =>
        var target := d.store[t];
        if SkipsOwnerHistory(e, target) {
        } else {
          AddNeighbor(g, d, nodeId, target, f.name, ids);
        }
      case InstanceAggregate(Some(ms)) =>
        AddNeighbors(g, d, nodeId, Targets(d, ms), f.name, ids);
      case _ =>
    }
  }

  /** p2n.py:50-65: the positional fields, in order. */
  method AddForwardEdges(g: Graph<NodeKey, AttrValue>, d: Decoder, e: Entity, nodeId: NodeKey,
                         ids: SurrogateAllocator)
    requires d.FieldsResolve(e.fields)
    modifies g, ids
    ensures var b := ForwardLinks(d, e, e.fields, |e.fields|, old(ids.next));
      g.Value() == AttachAll(old(g.Value()), nodeId, b.links) && ids.next == b.next
  {
    ghost var done := Batch([], ids.next);
    var i := 0;
    while i < |e.fields|
      invariant 0 <= i <= |e.fields|
      invariant done == ForwardLinks(d, e, e.fields, i, old(ids.next))
      invariant g.Value() == AttachAll(old(g.Value()), nodeId, done.links) && ids.next == done.next
    {
      var f := e.fields[i];
      ForwardLinksStep(old(g.Value()), d, e, nodeId, e.fields, i, old(ids.next));
      AddFieldEdges(g, d, e, nodeId, f, ids);
      done := ForwardLinks(d, e, e.fields, i + 1, old(ids.next));
      i := i + 1;
    }
  }

  /** p2n.py:67-74 for one role: every member, looked up by its id, in order. */
  method AddRoleEdges(g: Graph<NodeKey, AttrValue>, d: Decoder, nodeId: NodeKey, r: InverseRole,
                      ids: SurrogateAllocator)
    requires d.MembersResolve(r.members)
    modifies g, ids
    ensures var b := RoleLinks(d, r, old(ids.next));
      g.Value() == AttachAll(old(g.Value()), nodeId, b.links) && ids.next == b.next
  {
    if r.members != [] {
      AddNeighbors(g, d, nodeId, Canonical(d, r.members), r.role, ids);
    } else {
      assert Canonical(d, r.members) == [];
    }
  }

  /** p2n.py:66-74: the inverse roles, in order. */
  method AddInverseEdges(g: Graph<NodeKey, AttrValue>, d: Decoder, e: Entity, nodeId: NodeKey,
                         ids: SurrogateAllocator)
    requires d.InversesResolve(e.inverses)
    modifies g, ids
    ensures var b := InverseLinks(d, e.inverses, |e.inverses|, old(ids.next));
      g.Value() == AttachAll(old(g.Value()), nodeId, b.links) && ids.next == b.next
  {
    ghost var done := Batch([], ids.next);
    var k := 0;
    while k < |e.inverses|
      invariant 0 <= k <= |e.inverses|
      invariant done == InverseLinks(d, e.inverses, k, old(ids.next))
      invariant g.Value() == AttachAll(old(g.Value()), nodeId, done.links) && ids.next == done.next
    {
      var r := e.inverses[k];
      ghost var role := RoleLinks(d, r, done.next);
      AddRoleEdges(g, d, nodeId, r, ids);
      AttachAllAppend(old(g.Value()), nodeId, done.links, role.links);
      done := Batch(done.links + role.links, role.next);
      k := k + 1;
    }
  }

  method CreateGraphFromEntity(g: Graph<NodeKey, AttrValue>, e: Entity, d: Decoder, ids: SurrogateAllocator)
    requires d.Resolves(e)
    modifies g, ids
    ensures Built(g.Value(), ids.next) == EntityGraph(old(g.Value()), d, e, old(ids.next))
  {
    var nodeId := ResolveKey(e, ids);
    var nodeData := CreatePureNode(e, d, true, ids);
    g.AddNode(nodeId, nodeData);
    ghost var start := g.Value();
    ghost var forward := ForwardLinks(d, e, e.fields, |e.fields|, ids.next);
    AddForwardEdges(g, d, e, nodeId, ids);
    ghost var inverse := InverseLinks(d, e.inverses, |e.inverses|, ids.next);
    AddInverseEdges(g, d, e, nodeId, ids);
    AttachAllAppend(start, nodeId, forward.links, inverse.links);
  }

  method CreateFullGraph(g: Graph<NodeKey, AttrValue>, d: Decoder, ids: SurrogateAllocator)
    requires d.Valid()
    modifies g, ids
    ensures Built(g.Value(), ids.next) == FullGraph(old(g.Value()), d, d.entityNames, old(ids.next))
  {
    var names := d.entityNames;
    ghost var done := Built(g.Value(), ids.next);
    var idx := 0;
    while idx < |names|
      invariant 0 <= idx <= |names|
      invariant done == FullGraph(old(g.Value()), d, names[..idx], old(ids.next))
      invariant done == Built(g.Value(), ids.next)
    {
      assert names[..idx + 1][..idx] == names[..idx];
      var entity := d.ById(names[idx]);
      CreateGraphFromEntity(g, entity, d, ids);
      done := Built(g.Value(), ids.next);
      idx := idx + 1;
    }
    assert names[..idx] == names;
  }

  // ---------------------------------------------------------------------------
  // Insertion order

  /** One more field: its insertions follow those of the fields before it. */
  lemma ForwardLinksStep(g: NodeGraph, d: Decoder, source: Entity, self: NodeKey, fields: seq<Field>, i: nat, next: nat)
    requires d.FieldsResolve(fields) && i < |fields|
    ensures d.ArgResolves(fields[i].arg)
    ensures var before := ForwardLinks(d, source, fields, i, next);
      var field := FieldLinks(d, source, fields[i], before.next);
      var after := ForwardLinks(d, source, fields, i + 1, next);
      && after.next == field.next
      && AttachAll(AttachAll(g, self, before.links), self, field.links) == AttachAll(g, self, after.links)
  {
    var before := ForwardLinks(d, source, fields, i, next);
    AttachAllAppend(g, self, before.links, FieldLinks(d, source, fields[i], before.next).links);
  }

  lemma {:induction false} AttachAllAppend(g: NodeGraph, self: NodeKey, a: seq<Link>, b: seq<Link>)
    ensures AttachAll(g, self, a + b) == AttachAll(AttachAll(g, self, a), self, b)
  {
    if b == [] {
      assert a + b == a;
    } else {
      var init := b[..|b| - 1];
      assert (a + b)[..|a + b| - 1] == a + init;
      assert (a + b)[|a + b| - 1] == b[|b| - 1];
      AttachAllAppend(g, self, a, init);
    }
  }
}
