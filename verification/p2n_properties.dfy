/**
 What the graph builder of p2n.py guarantees: which insertions each field and
 each inverse role causes and in which order, the owner-history filter, the
 last-write-wins behaviour of the undirected graph, and the invariant of a
 whole build (every edge endpoint is a node, and the node of a STEP id carries
 exactly the descriptor of that entity, however often it was merged into).
 */
module P2nProperties {
  import opened IfcFile
  import opened NxGraph
  import opened P2nDescriptor
  import opened P2nMaterializer

  /**
   The link stands for `target`: its key is the STEP id and its record the
   descriptor, or, for an id-0 target, a surrogate key whose record carries the
   next surrogate as its `id`.
   */
  ghost predicate Describes(types: seq<string>, l: Link, target: Entity) {
    if target.id != 0 then l.key == Native(target.id) && l.attrs == Describe(target, types, true, 0)
    else l.key.Surrogate? && l.attrs == Describe(target, types, true, l.key.token + 1)
  }

  predicate HasHeader(r: Record) {
    "id" in r && "name" in r && "labels" in r
  }

  /** The node keyed `k` with record `attrs` is one the builder can have made. */
  ghost predicate NodeFits(d: Decoder, k: NodeKey, attrs: Record, next: nat) {
    match k
    case Native(x) =>
      x in d.byId && d.byId[x] in d.store && attrs == Describe(d.store[d.byId[x]], d.typesWithSuper, true, 0)
    case Surrogate(t) => t < next && HasHeader(attrs)
  }

  /**
   The invariant of a build: every edge endpoint is a node, every node has
   the descriptor's header, every STEP-id node holds exactly its entity's
   descriptor, and every surrogate was drawn before `next`.
   */
  ghost predicate WellBuilt(d: Decoder, g: NodeGraph, next: nat) {
    && (forall p, k :: p in g.edges && k in p ==> k in g.nodes)
    && (forall k :: k in g.nodes ==> HasHeader(g.nodes[k]))
    && (forall k :: k in g.nodes ==> NodeFits(d, k, g.nodes[k], next))
  }

  // ---------------------------------------------------------------------------
  // Neighbours, aggregates, references, inverse roles

  /**
   A run of neighbour insertions: one link per target, in the targets' order,
   each labelled `edgeType` and standing for its target; the surrogates it draws
   are fresh, in increasing order.
   */
  lemma {:induction false} NeighborLinksInOrder(types: seq<string>, targets: seq<Entity>, edgeType: string, next: nat)
    ensures var b := NeighborLinks(types, targets, edgeType, next);
      && |b.links| == |targets|
      && next <= b.next
      && (forall i :: 0 <= i < |targets| ==>
            b.links[i].edgeType == edgeType && Describes(types, b.links[i], targets[i]))
      && (forall i :: 0 <= i < |targets| && b.links[i].key.Surrogate? ==>
            next <= b.links[i].key.token && b.links[i].key.token + 1 < b.next)
      && (forall i, j :: 0 <= i < j < |targets| && b.links[i].key.Surrogate? && b.links[j].key.Surrogate? ==>
            b.links[i].key.token < b.links[j].key.token)
      && ((forall i :: 0 <= i < |targets| ==> targets[i].id != 0) ==> b.next == next)
  {
    if targets != [] {
      var init, t := targets[..|targets| - 1], targets[|targets| - 1];
      NeighborLinksInOrder(types, init, edgeType, next);
      var before := NeighborLinks(types, init, edgeType, next);
      var last := Neighbor(types, t, edgeType, before.next);
      DescribeDeterministic(t, types, true, before.next, 0);
      assert last.links[0].edgeType == edgeType && Describes(types, last.links[0], t);
      var b := NeighborLinks(types, targets, edgeType, next);
      assert b.links == before.links + last.links;
      forall i | 0 <= i < |targets|
        ensures b.links[i].edgeType == edgeType && Describes(types, b.links[i], targets[i])
      {
        if i < |init| {
          assert b.links[i] == before.links[i] && targets[i] == init[i];
        }
      }
    }
  }

  /**
   Aggregate expansion: an aggregate-of-entity field yields one insertion per
   member, in collection order, each labelled with the field's name; a null or
   empty aggregate yields nothing and draws no surrogate.
   */
  lemma AggregateExpansion(d: Decoder, source: Entity, f: Field, next: nat)
    requires f.arg.InstanceAggregate? && d.ArgResolves(f.arg)
    ensures f.arg.members == None || f.arg.members == Some([]) ==> FieldLinks(d, source, f, next) == Batch([], next)
    ensures f.arg.members.Some? ==>
      var ms, b := f.arg.members.value, FieldLinks(d, source, f, next);
      && |b.links| == |ms|
      && forall i :: 0 <= i < |ms| ==> b.links[i].edgeType == f.name && Describes(d.typesWithSuper, b.links[i], d.store[ms[i]])
  {
    if f.arg.members.Some? {
      NeighborLinksInOrder(d.typesWithSuper, Targets(d, f.arg.members.value), f.name, next);
    }
  }

  /**
   The owner-history filter: a reference to an `IfcOwnerHistory` from anything
   but the `IfcProject` adds nothing; any other non-null reference adds its
   target and one edge labelled with the field's name; a null one adds nothing.
   */
  lemma OwnerHistoryFilter(d: Decoder, source: Entity, f: Field, next: nat)
    requires f.arg.Instance? && d.ArgResolves(f.arg)
    ensures f.arg.target == None ==> FieldLinks(d, source, f, next) == Batch([], next)
    ensures f.arg.target.Some? && d.store[f.arg.target.value].typeName in OwnerHistoryTypes
              && source.typeName != ProjectType ==>
      FieldLinks(d, source, f, next) == Batch([], next)
    ensures f.arg.target.Some? && (d.store[f.arg.target.value].typeName !in OwnerHistoryTypes
              || source.typeName == ProjectType) ==>
      var b := FieldLinks(d, source, f, next);
      |b.links| == 1 && b.links[0].edgeType == f.name && Describes(d.typesWithSuper, b.links[0], d.store[f.arg.target.value])
  {
    if f.arg.target.Some? {
      var t := d.store[f.arg.target.value];
      DescribeDeterministic(t, d.typesWithSuper, true, NextAfter(t, next), 0);
    }
  }

  /** Simple and derived fields add no node and no edge. */
  lemma ScalarFieldsAddNothing(d: Decoder, source: Entity, f: Field, next: nat)
    requires f.arg.Plain? || f.arg.Derived?
    ensures FieldLinks(d, source, f, next) == Batch([], next)
  {
  }

  /**
   Inverse edges: a role yields one insertion per member, in order, labelled
   with the role name; the member is replaced by the instance `by_id` returns,
   so its key is its STEP id and no surrogate is drawn. An empty role adds nothing.
   */
  lemma InverseRoleEdges(d: Decoder, r: InverseRole, next: nat)
    requires d.Valid() && d.MembersResolve(r.members)
    ensures var b := RoleLinks(d, r, next);
      && |b.links| == |r.members|
      && b.next == next
      && forall i :: 0 <= i < |r.members| ==>
           && b.links[i].edgeType == r.role
           && b.links[i].key == Native(d.store[r.members[i]].id)
           && b.links[i].attrs == Describe(d.ById(d.store[r.members[i]].id), d.typesWithSuper, true, 0)
  {
    var ts := Canonical(d, r.members);
    NeighborLinksInOrder(d.typesWithSuper, ts, r.role, next);
    assert forall i :: 0 <= i < |ts| ==> ts[i].id != 0;
  }

  /** The names of the first `count` fields whose kind is entity or aggregate of entity. */
  function CompoundNames(fields: seq<Field>, count: nat): set<string>
    requires count <= |fields|
  {
    set i | 0 <= i < count && (fields[i].arg.Instance? || fields[i].arg.InstanceAggregate?) :: fields[i].name
  }

  /**
   Every forward edge is labelled with the name of an entity or
   aggregate-of-entity field; simple and derived fields give none.
   */
  lemma {:induction false} ForwardLinksSources(d: Decoder, source: Entity, fields: seq<Field>, count: nat, next: nat)
    requires d.FieldsResolve(fields) && count <= |fields|
    ensures forall l :: l in ForwardLinks(d, source, fields, count, next).links ==> l.edgeType in CompoundNames(fields, count)
  {
    if count > 0 {
      ForwardLinksSources(d, source, fields, count - 1, next);
      var before := ForwardLinks(d, source, fields, count - 1, next);
      var f := fields[count - 1];
      var last := FieldLinks(d, source, f, before.next);
      var b := ForwardLinks(d, source, fields, count, next);
      assert CompoundNames(fields, count - 1) <= CompoundNames(fields, count);
      forall l | l in b.links
        ensures l.edgeType in CompoundNames(fields, count)
      {
        if l !in before.links {
          assert l in last.links;
          var j :| 0 <= j < |last.links| && last.links[j] == l;
          if f.arg.Instance? {
            OwnerHistoryFilter(d, source, f, before.next);
          } else if f.arg.InstanceAggregate? {
            AggregateExpansion(d, source, f, before.next);
          }
          assert l.edgeType == fields[count - 1].name;
          assert f.arg.Instance? || f.arg.InstanceAggregate?;
        }
      }
    }
  }

  // ---------------------------------------------------------------------------
  // The undirected graph's last-write-wins behaviour

  /** The keys a run of insertions reaches. */
  function KeysOf(links: seq<Link>): set<NodeKey> {
    if links == [] then {} else KeysOf(links[..|links| - 1]) + {links[|links| - 1].key}
  }

  /** The edges a run of insertions from `self` reaches. */
  function EdgesOf(self: NodeKey, links: seq<Link>): set<set<NodeKey>> {
    if links == [] then {} else EdgesOf(self, links[..|links| - 1]) + {{self, links[|links| - 1].key}}
  }

  /** `KeysOf` holds the key of every link and nothing else. */
  lemma {:induction false} KeysOfMembers(links: seq<Link>)
    ensures forall i :: 0 <= i < |links| ==> links[i].key in KeysOf(links)
    ensures forall k :: k in KeysOf(links) ==> exists i :: 0 <= i < |links| && links[i].key == k
  {
    if links != [] {
      var init := links[..|links| - 1];
      KeysOfMembers(init);
      assert forall i :: 0 <= i < |init| ==> init[i] == links[i];
    }
  }

  /** `EdgesOf` joins `self` to every key the run reaches, and holds nothing else. */
  lemma {:induction false} EdgesOfMembers(self: NodeKey, links: seq<Link>)
    ensures forall k :: k in KeysOf(links) ==> {self, k} in EdgesOf(self, links)
    ensures forall p :: p in EdgesOf(self, links) ==> self in p
  {
    if links != [] {
      EdgesOfMembers(self, links[..|links| - 1]);
    }
  }

  /** One insertion from `self`: the link's key and `self` join the nodes, `{self, key}` joins the edges. */
  lemma AttachStep(g: NodeGraph, self: NodeKey, links: seq<Link>)
    requires links != []
    ensures var r, h, l := AttachAll(g, self, links), AttachAll(g, self, links[..|links| - 1]), links[|links| - 1];
      && r.nodes.Keys == h.nodes.Keys + {l.key, self}
      && r.edges.Keys == h.edges.Keys + {{self, l.key}}
  {
  }

  /**
   After a run of insertions from `self` the nodes are the old ones, `self`
   and every link's key, and nothing else.
   */
  lemma {:induction false} AttachAllNodeKeys(g: NodeGraph, self: NodeKey, links: seq<Link>)
    ensures AttachAll(g, self, links).nodes.Keys == g.nodes.Keys + KeysOf(links) + (if links == [] then {} else {self})
  {
    if links != [] {
      var init := links[..|links| - 1];
      AttachAllNodeKeys(g, self, init);
      AttachStep(g, self, links);
    }
  }

  /** After a run of insertions from `self` the edges are the old ones and one `{self, key}` per link, and nothing else. */
  lemma {:induction false} AttachAllEdgeKeys(g: NodeGraph, self: NodeKey, links: seq<Link>)
    ensures AttachAll(g, self, links).edges.Keys == g.edges.Keys + EdgesOf(self, links)
  {
    if links != [] {
      var init := links[..|links| - 1];
      AttachAllEdgeKeys(g, self, init);
      AttachStep(g, self, links);
      assert EdgesOf(self, links) == EdgesOf(self, init) + {{self, links[|links| - 1].key}};
    }
  }

  /**
   A second `add_edge` between the same pair overwrites the label: the edge to
   a key carries the label of the last insertion that reached that key.
   */
  lemma {:induction false} AttachAllLastLabelWins(g: NodeGraph, self: NodeKey, links: seq<Link>, i: nat)
    requires i < |links|
    requires forall j :: i < j < |links| ==> links[j].key != links[i].key
    ensures {self, links[i].key} in AttachAll(g, self, links).edges
    ensures AttachAll(g, self, links).edges[{self, links[i].key}] == links[i].edgeType
  {
    var init := links[..|links| - 1];
    var l := links[|links| - 1];
    if i < |links| - 1 {
      AttachAllLastLabelWins(g, self, init, i);
      assert l.key != links[i].key;
    }
  }

  /** The keys of two runs one after the other are the keys of each. */
  lemma {:induction false} KeysOfAppend(a: seq<Link>, b: seq<Link>)
    ensures KeysOf(a + b) == KeysOf(a) + KeysOf(b)
  {
    if b == [] {
      assert a + b == a;
    } else {
      var init := b[..|b| - 1];
      assert (a + b)[..|a + b| - 1] == a + init;
      assert (a + b)[|a + b| - 1] == b[|b| - 1];
      KeysOfAppend(a, init);
    }
  }

  /** Every member of an inverse role is reached under its STEP id. */
  lemma RoleReach(d: Decoder, r: InverseRole, next: nat)
    requires d.Valid() && d.MembersResolve(r.members)
    ensures forall j :: 0 <= j < |r.members| ==> Native(d.store[r.members[j]].id) in KeysOf(RoleLinks(d, r, next).links)
  {
    InverseRoleEdges(d, r, next);
    KeysOfMembers(RoleLinks(d, r, next).links);
  }

  /** Every member of the first `count` inverse roles is reached under its STEP id. */
  lemma {:induction false} InverseLinksReach(d: Decoder, roles: seq<InverseRole>, count: nat, next: nat)
    requires d.Valid() && d.InversesResolve(roles) && count <= |roles|
    ensures forall i, j :: 0 <= i < count && 0 <= j < |roles[i].members| ==>
      Native(d.store[roles[i].members[j]].id) in KeysOf(InverseLinks(d, roles, count, next).links)
  {
    if count > 0 {
      InverseLinksReach(d, roles, count - 1, next);
      var before := InverseLinks(d, roles, count - 1, next);
      RoleReach(d, roles[count - 1], before.next);
      var last := RoleLinks(d, roles[count - 1], before.next);
      KeysOfAppend(before.links, last.links);
    }
  }

  /** The inverse members are reached whatever insertions come before them. */
  lemma InverseMembersReached(d: Decoder, e: Entity, forward: seq<Link>, next: nat)
    requires d.Valid() && d.InversesResolve(e.inverses)
    ensures forall i, j :: 0 <= i < |e.inverses| && 0 <= j < |e.inverses[i].members| ==>
      Native(d.store[e.inverses[i].members[j]].id) in KeysOf(forward + InverseLinks(d, e.inverses, |e.inverses|, next).links)
  {
    InverseLinksReach(d, e.inverses, |e.inverses|, next);
    KeysOfAppend(forward, InverseLinks(d, e.inverses, |e.inverses|, next).links);
  }

  /** Every edge a run of insertions from `self` adds touches `self`, and `self` is joined to every key the run reaches. */
  lemma AttachAllTouches(g: NodeGraph, self: NodeKey, links: seq<Link>)
    ensures var r := AttachAll(g, self, links);
      && g.edges.Keys <= r.edges.Keys
      && (forall p :: p in r.edges && p !in g.edges ==> self in p)
      && (forall k :: k in KeysOf(links) ==> {self, k} in r.edges)
  {
    AttachAllEdgeKeys(g, self, links);
    EdgesOfMembers(self, links);
  }

  /**
   `x` is the id of an instance field `f` of `source` leads to: the target
   of a reference the owner-history filter lets through, or a member of an
   aggregate.
   */
  ghost predicate Follows(d: Decoder, source: Entity, f: Field, x: nat) {
    match f.arg
    case Instance(Some(t)) => t in d.store && !SkipsOwnerHistory(source, d.store[t]) && d.store[t].id == x
    case InstanceAggregate(Some(ms)) => exists j :: 0 <= j < |ms| && ms[j] in d.store && d.store[ms[j]].id == x
    case _ => false
  }

  /** A field reaches every instance with a STEP id that it leads to, under that id. */
  lemma FieldReached(d: Decoder, source: Entity, f: Field, next: nat)
    requires d.ArgResolves(f.arg)
    ensures forall x :: x != 0 && Follows(d, source, f, x) ==>
      Native(x) in KeysOf(FieldLinks(d, source, f, next).links)
  {
    var b := FieldLinks(d, source, f, next);
    KeysOfMembers(b.links);
    forall x | x != 0 && Follows(d, source, f, x)
      ensures Native(x) in KeysOf(b.links)
    {
      match f.arg
      case Instance(Some(t)) =>
        OwnerHistoryFilter(d, source, f, next);
        assert b.links[0].key == Native(x);
      case InstanceAggregate(Some(ms)) =>
        AggregateExpansion(d, source, f, next);
        var j :| 0 <= j < |ms| && ms[j] in d.store && d.store[ms[j]].id == x;
        assert b.links[j].key == Native(x);
    }
  }

  /** The first `count` fields reach every instance with a STEP id that one of them leads to. */
  lemma {:induction false} ForwardLinksReach(d: Decoder, source: Entity, fields: seq<Field>, count: nat, next: nat)
    requires d.FieldsResolve(fields) && count <= |fields|
    ensures forall i, x :: 0 <= i < count && x != 0 && Follows(d, source, fields[i], x) ==>
      Native(x) in KeysOf(ForwardLinks(d, source, fields, count, next).links)
  {
    if count > 0 {
      ForwardLinksReach(d, source, fields, count - 1, next);
      var before := ForwardLinks(d, source, fields, count - 1, next);
      FieldReached(d, source, fields[count - 1], before.next);
      KeysOfAppend(before.links, FieldLinks(d, source, fields[count - 1], before.next).links);
    }
  }

  /**
   One entity step: every edge it adds touches the entity's node, and the
   entity ends up joined to every instance with a STEP id that one of its
   fields leads to and to every member of every inverse role, whether or not
   that instance was visited before.
   */
  lemma EntityGraphEdges(g: NodeGraph, d: Decoder, e: Entity, next: nat)
    requires d.Valid() && d.Resolves(e)
    ensures var r := EntityGraph(g, d, e, next);
      && g.edges.Keys <= r.graph.edges.Keys
      && (forall p :: p in r.graph.edges && p !in g.edges ==> KeyOf(e, next) in p)
      && (forall i, x :: 0 <= i < |e.fields| && x != 0 && Follows(d, e, e.fields[i], x) ==>
            {KeyOf(e, next), Native(x)} in r.graph.edges)
      && (forall i, j :: 0 <= i < |e.inverses| && 0 <= j < |e.inverses[i].members| ==>
            {KeyOf(e, next), Native(d.store[e.inverses[i].members[j]].id)} in r.graph.edges)
  {
    var key := KeyOf(e, next);
    var afterKey := NextAfter(e, next);
    var forward := ForwardLinks(d, e, e.fields, |e.fields|, NextAfter(e, afterKey));
    var inverse := InverseLinks(d, e.inverses, |e.inverses|, forward.next);
    AttachAllTouches(AddNodeTo(g, key, Describe(e, d.typesWithSuper, true, afterKey)), key, forward.links + inverse.links);
    InverseMembersReached(d, e, forward.links, forward.next);
    ForwardLinksReach(d, e, e.fields, |e.fields|, NextAfter(e, afterKey));
    KeysOfAppend(forward.links, inverse.links);
  }


  /**
   For a neighbour with a STEP id the node key and the record's `id` are that
   id; for an id-0 neighbour they are two different surrogates (unless a field
   named `id` overwrites the record's).
   */
  lemma NeighborKeyMatchesId(types: seq<string>, l: Link, target: Entity)
    requires Describes(types, l, target)
    requires forall j :: 0 <= j < |target.fields| ==> !WritesKey(target.fields[j], "id")
    ensures "id" in l.attrs
    ensures l.attrs["id"] == KeyAttr(l.key) <==> target.id != 0
  {
    if target.id != 0 {
      DescribeHeader(target, types, true, 0);
    } else {
      DescribeHeader(target, types, true, l.key.token + 1);
    }
  }

  /** The same for the entity a step starts from: its key is drawn first, then its record's `id`. */
  lemma EntityKeyMatchesId(e: Entity, types: seq<string>, next: nat)
    requires forall j :: 0 <= j < |e.fields| ==> !WritesKey(e.fields[j], "id")
    ensures "id" in Describe(e, types, true, NextAfter(e, next))
    ensures Describe(e, types, true, NextAfter(e, next))["id"] == KeyAttr(KeyOf(e, next)) <==> e.id != 0
  {
    DescribeHeader(e, types, true, NextAfter(e, next));
  }

  // ---------------------------------------------------------------------------
  // Surrogates never collide

  /** The surrogate keys of `links` lie in `[lo, hi)` and increase along the run, so no two coincide. */
  ghost predicate FreshSurrogates(links: seq<Link>, lo: nat, hi: nat) {
    && (forall i :: 0 <= i < |links| && links[i].key.Surrogate? ==> lo <= links[i].key.token < hi)
    && (forall i, j :: 0 <= i < j < |links| && links[i].key.Surrogate? && links[j].key.Surrogate? ==>
          links[i].key.token < links[j].key.token)
  }

  lemma FreshSurrogatesAppend(a: seq<Link>, b: seq<Link>, lo: nat, mid: nat, hi: nat)
    requires lo <= mid <= hi && FreshSurrogates(a, lo, mid) && FreshSurrogates(b, mid, hi)
    ensures FreshSurrogates(a + b, lo, hi)
  {
    var c := a + b;
    forall i | 0 <= i < |c| && c[i].key.Surrogate?
      ensures lo <= c[i].key.token < hi
    {
      if i >= |a| {
        assert c[i] == b[i - |a|];
      }
    }
    forall i, j | 0 <= i < j < |c| && c[i].key.Surrogate? && c[j].key.Surrogate?
      ensures c[i].key.token < c[j].key.token
    {
      if i >= |a| {
        assert c[i] == b[i - |a|] && c[j] == b[j - |a|];
      } else if j >= |a| {
        assert c[j] == b[j - |a|];
      }
    }
  }

  /** The surrogates a run of neighbours draws are fresh: at least `next`, below the new counter, increasing. */
  lemma NeighborLinksFresh(types: seq<string>, targets: seq<Entity>, edgeType: string, next: nat)
    ensures var b := NeighborLinks(types, targets, edgeType, next);
      next <= b.next && FreshSurrogates(b.links, next, b.next)
  {
    NeighborLinksInOrder(types, targets, edgeType, next);
  }

  lemma FieldLinksFresh(d: Decoder, source: Entity, f: Field, next: nat)
    requires d.ArgResolves(f.arg)
    ensures var b := FieldLinks(d, source, f, next);
      next <= b.next && FreshSurrogates(b.links, next, b.next)
  {
    match f.arg
    case Instance(Some(t)) =>
      NeighborLinksFresh(d.typesWithSuper, [d.store[t]], f.name, next);
      assert NeighborLinks(d.typesWithSuper, [d.store[t]], f.name, next)
          == Neighbor(d.typesWithSuper, d.store[t], f.name, next);
    case InstanceAggregate(Some(ms)) =>
      NeighborLinksFresh(d.typesWithSuper, Targets(d, ms), f.name, next);
    case _ =>
  }

  /** The surrogates the field loop draws are fresh and pairwise distinct, across fields too. */
  lemma {:induction false} ForwardLinksFresh(d: Decoder, source: Entity, fields: seq<Field>, count: nat, next: nat)
    requires d.FieldsResolve(fields) && count <= |fields|
    ensures var b := ForwardLinks(d, source, fields, count, next);
      next <= b.next && FreshSurrogates(b.links, next, b.next)
  {
    if count > 0 {
      ForwardLinksFresh(d, source, fields, count - 1, next);
      var before := ForwardLinks(d, source, fields, count - 1, next);
      FieldLinksFresh(d, source, fields[count - 1], before.next);
      var last := FieldLinks(d, source, fields[count - 1], before.next);
      FreshSurrogatesAppend(before.links, last.links, next, before.next, last.next);
    }
  }

  /** The surrogates the role loop draws are fresh and pairwise distinct, across roles too. */
  lemma {:induction false} InverseLinksFresh(d: Decoder, roles: seq<InverseRole>, count: nat, next: nat)
    requires d.InversesResolve(roles) && count <= |roles|
    ensures var b := InverseLinks(d, roles, count, next);
      next <= b.next && FreshSurrogates(b.links, next, b.next)
  {
    if count > 0 {
      InverseLinksFresh(d, roles, count - 1, next);
      var before := InverseLinks(d, roles, count - 1, next);
      var r := roles[count - 1];
      NeighborLinksFresh(d.typesWithSuper, Canonical(d, r.members), r.role, before.next);
      var last := RoleLinks(d, r, before.next);
      FreshSurrogatesAppend(before.links, last.links, next, before.next, last.next);
    }
  }

  /** The insertions an entity step makes after the entity's own node: forward, then inverse. */
  function StepLinks(d: Decoder, e: Entity, next: nat): seq<Link>
    requires d.Resolves(e)
  {
    var forward := ForwardLinks(d, e, e.fields, |e.fields|, NextAfter(e, NextAfter(e, next)));
    forward.links + InverseLinks(d, e.inverses, |e.inverses|, forward.next).links
  }

  /**
   Within one entity step, on a well-built graph, no surrogate collides: each
   one drawn for a neighbour is new to the graph, differs from the entity's own
   key, and differs from every other one the step draws.
   */
  lemma EntityStepFreshSurrogates(g: NodeGraph, d: Decoder, e: Entity, next: nat)
    requires d.Resolves(e) && WellBuilt(d, g, next)
    ensures var key := KeyOf(e, next);
      EntityGraph(g, d, e, next).graph
        == AttachAll(AddNodeTo(g, key, Describe(e, d.typesWithSuper, true, NextAfter(e, next))), key, StepLinks(d, e, next))
    ensures var links := StepLinks(d, e, next);
      && (forall i :: 0 <= i < |links| && links[i].key.Surrogate? ==>
            links[i].key !in g.nodes && links[i].key != KeyOf(e, next))
      && (forall i, j :: 0 <= i < j < |links| && links[i].key.Surrogate? && links[j].key.Surrogate? ==>
            links[i].key != links[j].key)
  {
    var start := NextAfter(e, NextAfter(e, next));
    var forward := ForwardLinks(d, e, e.fields, |e.fields|, start);
    var inverse := InverseLinks(d, e.inverses, |e.inverses|, forward.next);
    ForwardLinksFresh(d, e, e.fields, |e.fields|, start);
    InverseLinksFresh(d, e.inverses, |e.inverses|, forward.next);
    FreshSurrogatesAppend(forward.links, inverse.links, start, forward.next, inverse.next);
  }

  // ---------------------------------------------------------------------------
  // The invariant of a build

  lemma NodeFitsLater(d: Decoder, k: NodeKey, attrs: Record, next: nat, later: nat)
    requires NodeFits(d, k, attrs, next) && next <= later
    ensures NodeFits(d, k, attrs, later)
  {
  }

  lemma WellBuiltLater(d: Decoder, g: NodeGraph, next: nat, later: nat)
    requires WellBuilt(d, g, next) && next <= later
    ensures WellBuilt(d, g, later)
  {
    forall k | k in g.nodes
      ensures NodeFits(d, k, g.nodes[k], later)
    {
      NodeFitsLater(d, k, g.nodes[k], next, later);
    }
  }

  /** The empty graph `nx.Graph()` is well built. */
  lemma EmptyWellBuilt(d: Decoder, next: nat)
    ensures WellBuilt(d, Empty(), next)
  {
  }

  lemma DescribeHasHeader(e: Entity, types: seq<string>, hierarchy: bool, next: nat)
    ensures HasHeader(Describe(e, types, hierarchy, next))
  {
    DescribeKeys(e, types, hierarchy, next);
  }

  /** `add_node` of a record the builder can have made keeps the invariant (merging a record into itself changes nothing). */
  lemma AddFittingNode(d: Decoder, g: NodeGraph, k: NodeKey, attrs: Record, next: nat)
    requires WellBuilt(d, g, next) && NodeFits(d, k, attrs, next) && HasHeader(attrs)
    ensures WellBuilt(d, AddNodeTo(g, k, attrs), next)
    ensures Extends(g, AddNodeTo(g, k, attrs)) && k in AddNodeTo(g, k, attrs).nodes
  {
    var r := AddNodeTo(g, k, attrs);
    if k in g.nodes && k.Native? {
      assert g.nodes[k] == attrs;
      assert r.nodes[k] == attrs;
    }
    assert NodeFits(d, k, r.nodes[k], next);
  }

  lemma {:induction false} AttachAllWellBuilt(d: Decoder, g: NodeGraph, self: NodeKey, links: seq<Link>, next: nat)
    requires WellBuilt(d, g, next) && self in g.nodes
    requires forall i :: 0 <= i < |links| ==> NodeFits(d, links[i].key, links[i].attrs, next) && HasHeader(links[i].attrs)
    ensures WellBuilt(d, AttachAll(g, self, links), next)
    ensures Extends(g, AttachAll(g, self, links)) && self in AttachAll(g, self, links).nodes
  {
    if links != [] {
      var init, l := links[..|links| - 1], links[|links| - 1];
      AttachAllWellBuilt(d, g, self, init, next);
      var h := AttachAll(g, self, init);
      AddFittingNode(d, h, l.key, l.attrs, next);
      var h1 := AddNodeTo(h, l.key, l.attrs);
      var h2 := AddEdgeTo(h1, self, l.key, l.edgeType);
      assert h2.nodes == h1.nodes;
      assert h2 == AttachAll(g, self, links);
    }
  }

  /** Every insertion of a run of neighbours that are instances of the file fits the invariant. */
  lemma NeighborLinksFit(d: Decoder, targets: seq<Entity>, edgeType: string, next: nat)
    requires d.Valid() && forall i :: 0 <= i < |targets| ==> d.InFile(targets[i])
    ensures var b := NeighborLinks(d.typesWithSuper, targets, edgeType, next);
      && next <= b.next
      && forall i :: 0 <= i < |b.links| ==> NodeFits(d, b.links[i].key, b.links[i].attrs, b.next) && HasHeader(b.links[i].attrs)
  {
    var b := NeighborLinks(d.typesWithSuper, targets, edgeType, next);
    NeighborLinksInOrder(d.typesWithSuper, targets, edgeType, next);
    forall i | 0 <= i < |b.links|
      ensures NodeFits(d, b.links[i].key, b.links[i].attrs, b.next) && HasHeader(b.links[i].attrs)
    {
      var t := targets[i];
      if t.id != 0 {
        DescribeHasHeader(t, d.typesWithSuper, true, 0);
      } else {
        DescribeHasHeader(t, d.typesWithSuper, true, b.links[i].key.token + 1);
      }
    }
  }

  lemma FieldLinksFit(d: Decoder, source: Entity, f: Field, next: nat)
    requires d.Valid() && d.ArgResolves(f.arg)
    ensures var b := FieldLinks(d, source, f, next);
      && next <= b.next
      && forall i :: 0 <= i < |b.links| ==> NodeFits(d, b.links[i].key, b.links[i].attrs, b.next) && HasHeader(b.links[i].attrs)
  {
    match f.arg
    case Instance(Some(t)) =>
      assert d.InFile(d.store[t]);
      NeighborLinksFit(d, [d.store[t]], f.name, next);
      assert NeighborLinks(d.typesWithSuper, [d.store[t]], f.name, next).links
          == Neighbor(d.typesWithSuper, d.store[t], f.name, next).links;
    case InstanceAggregate(Some(ms)) =>
      NeighborLinksFit(d, Targets(d, ms), f.name, next);
    case _ =>
  }

  lemma {:induction false} ForwardLinksFit(d: Decoder, source: Entity, fields: seq<Field>, count: nat, next: nat)
    requires d.Valid() && d.FieldsResolve(fields) && count <= |fields|
    ensures var b := ForwardLinks(d, source, fields, count, next);
      && next <= b.next
      && forall i :: 0 <= i < |b.links| ==> NodeFits(d, b.links[i].key, b.links[i].attrs, b.next) && HasHeader(b.links[i].attrs)
  {
    if count > 0 {
      ForwardLinksFit(d, source, fields, count - 1, next);
      var before := ForwardLinks(d, source, fields, count - 1, next);
      FieldLinksFit(d, source, fields[count - 1], before.next);
      var last := FieldLinks(d, source, fields[count - 1], before.next);
      var b := ForwardLinks(d, source, fields, count, next);
      forall i | 0 <= i < |b.links|
        ensures NodeFits(d, b.links[i].key, b.links[i].attrs, b.next) && HasHeader(b.links[i].attrs)
      {
        if i < |before.links| {
          assert b.links[i] == before.links[i];
          NodeFitsLater(d, b.links[i].key, b.links[i].attrs, before.next, b.next);
        } else {
          assert b.links[i] == last.links[i - |before.links|];
        }
      }
    }
  }

  lemma {:induction false} InverseLinksFit(d: Decoder, roles: seq<InverseRole>, count: nat, next: nat)
    requires d.Valid() && d.InversesResolve(roles) && count <= |roles|
    ensures var b := InverseLinks(d, roles, count, next);
      && next <= b.next
      && forall i :: 0 <= i < |b.links| ==> NodeFits(d, b.links[i].key, b.links[i].attrs, b.next) && HasHeader(b.links[i].attrs)
  {
    if count > 0 {
      InverseLinksFit(d, roles, count - 1, next);
      var before := InverseLinks(d, roles, count - 1, next);
      var r := roles[count - 1];
      var ts := Canonical(d, r.members);
      forall i | 0 <= i < |ts|
        ensures d.InFile(ts[i])
      {
        assert d.byId[d.store[r.members[i]].id] in d.store;
      }
      NeighborLinksFit(d, ts, r.role, before.next);
      var last := RoleLinks(d, r, before.next);
      var b := InverseLinks(d, roles, count, next);
      forall i | 0 <= i < |b.links|
        ensures NodeFits(d, b.links[i].key, b.links[i].attrs, b.next) && HasHeader(b.links[i].attrs)
      {
        if i < |before.links| {
          assert b.links[i] == before.links[i];
          NodeFitsLater(d, b.links[i].key, b.links[i].attrs, before.next, b.next);
        } else {
          assert b.links[i] == last.links[i - |before.links|];
        }
      }
    }
  }

  /**
   One entity step keeps the invariant, removes nothing, and leaves the
   entity's own node in the graph.
   */
  lemma EntityGraphWellBuilt(g: NodeGraph, d: Decoder, e: Entity, next: nat)
    requires d.Valid() && d.Resolves(e) && d.InFile(e)
    requires WellBuilt(d, g, next)
    ensures var r := EntityGraph(g, d, e, next);
      && WellBuilt(d, r.graph, r.next)
      && Extends(g, r.graph)
      && next <= r.next
      && KeyOf(e, next) in r.graph.nodes
  {
    var key := KeyOf(e, next);
    var afterKey := NextAfter(e, next);
    var record := Describe(e, d.typesWithSuper, true, afterKey);
    var forward := ForwardLinks(d, e, e.fields, |e.fields|, NextAfter(e, afterKey));
    var inverse := InverseLinks(d, e.inverses, |e.inverses|, forward.next);
    ForwardLinksFit(d, e, e.fields, |e.fields|, NextAfter(e, afterKey));
    InverseLinksFit(d, e.inverses, |e.inverses|, forward.next);
    DescribeHasHeader(e, d.typesWithSuper, true, afterKey);
    DescribeDeterministic(e, d.typesWithSuper, true, afterKey, 0);
    WellBuiltLater(d, g, next, inverse.next);
    AddFittingNode(d, g, key, record, inverse.next);
    var links := forward.links + inverse.links;
    forall i | 0 <= i < |links|
      ensures NodeFits(d, links[i].key, links[i].attrs, inverse.next) && HasHeader(links[i].attrs)
    {
      if i < |forward.links| {
        NodeFitsLater(d, links[i].key, links[i].attrs, forward.next, inverse.next);
      } else {
        assert links[i] == inverse.links[i - |forward.links|];
      }
    }
    AttachAllWellBuilt(d, AddNodeTo(g, key, record), key, links, inverse.next);
  }

  /**
   `create_full_graph` keeps the invariant, removes no node and no edge, and
   afterwards every entity it visited is a node keyed by its STEP id.
   */
  lemma {:induction false} FullGraphWellBuilt(g: NodeGraph, d: Decoder, names: seq<nat>, next: nat)
    requires d.Valid() && forall x :: x in names ==> x in d.byId
    requires WellBuilt(d, g, next)
    ensures var r := FullGraph(g, d, names, next);
      && WellBuilt(d, r.graph, r.next)
      && Extends(g, r.graph)
      && forall x :: x in names ==> Native(x) in r.graph.nodes
  {
    if names != [] {
      var init, x := names[..|names| - 1], names[|names| - 1];
      FullGraphWellBuilt(g, d, init, next);
      var before := FullGraph(g, d, init, next);
      var e := d.ById(x);
      assert d.InFile(e);
      EntityGraphWellBuilt(before.graph, d, e, before.next);
      assert forall y :: y in names ==> y in init || y == x;
    }
  }

  /** `create_full_graph` visits the ids in order: a longer list continues from where the shorter one stopped. */
  lemma {:induction false} FullGraphAppend(g: NodeGraph, d: Decoder, a: seq<nat>, b: seq<nat>, next: nat)
    requires d.Valid() && (forall x :: x in a ==> x in d.byId) && (forall x :: x in b ==> x in d.byId)
    ensures var first := FullGraph(g, d, a, next);
      FullGraph(g, d, a + b, next) == FullGraph(first.graph, d, b, first.next)
  {
    if b == [] {
      assert a + b == a;
    } else {
      var init := b[..|b| - 1];
      assert (a + b)[..|a + b| - 1] == a + init;
      assert (a + b)[|a + b| - 1] == b[|b| - 1];
      FullGraphAppend(g, d, a, init, next);
    }
  }

  /**
   The whole build on a fresh graph: afterwards every entity of
   `entity_names()` is a node, every edge's endpoints are nodes, and the node
   of every STEP id holds exactly that entity's descriptor.
   */
  lemma BuildFromEmpty(d: Decoder, next: nat)
    requires d.Valid()
    ensures var r := FullGraph(Empty(), d, d.entityNames, next);
      && (forall x :: x in d.entityNames ==> Native(x) in r.graph.nodes)
      && (forall p, k :: p in r.graph.edges && k in p ==> k in r.graph.nodes)
      && (forall x :: Native(x) in r.graph.nodes ==>
            x in d.byId && r.graph.nodes[Native(x)] == Describe(d.ById(x), d.typesWithSuper, true, 0))
  {
    EmptyWellBuilt(d, next);
    FullGraphWellBuilt(Empty(), d, d.entityNames, next);
    var r := FullGraph(Empty(), d, d.entityNames, next);
    forall x | Native(x) in r.graph.nodes
      ensures x in d.byId && r.graph.nodes[Native(x)] == Describe(d.ById(x), d.typesWithSuper, true, 0)
    {
      assert NodeFits(d, Native(x), r.graph.nodes[Native(x)], r.next);
    }
  }
}
