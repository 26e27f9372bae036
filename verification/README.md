# IFC-graph: the p2n graph builder, modelled in Dafny

The IFC-graph tool turns a building model, an IFC file read through
ifcopenshell, into a networkx graph. Every entity instance becomes a node and
every reference between instances becomes a labelled edge. `p2n.py` does this
work in two parts:

- **Entity descriptor** (`create_pure_node_from_ifc_entity`). It builds the
  attribute record of one entity's node. The record holds:
  - `id`: the STEP id, or a fresh surrogate for an instance with id 0;
  - `name`: the concrete type;
  - `labels`: the supertype names the entity satisfies, in
    `types_with_super()` order;
  - one key per positional attribute that is not an entity reference, an
    aggregate of entity references or a derived attribute.
- **Graph materializer** (`create_graph_from_ifc_entity_all` and
  `create_full_graph`). It walks `entity_names()` in order. For each entity it
  does the following:
  - adds the entity's node;
  - follows its entity-reference attributes, except the owner-history filter:
    a reference to an `IfcOwnerHistory` is followed only from the `IfcProject`;
  - expands each aggregate attribute into one edge per member, in order;
  - adds one edge per member of each non-empty inverse role, with the member
    looked up again through `by_id`.

  Forward edges carry the attribute name as their `type`. Inverse edges carry
  the role name.

The model has five modules:

- `IfcFile` (`ifc_file.dfy`) is the parsed file, held as data:
  - instances keyed by a handle;
  - the id table behind `by_id`;
  - the `entity_names()` order;
  - the `types_with_super()` list;
  - per instance, its positional attributes, each tagged with the kind
    `get_argument_type` reports, and its inverse roles.

  `is_a(t)` is membership of `t` in the set of type names the instance satisfies.
- `NxGraph` (`nx_graph.dfy`) is the part of networkx's undirected simple
  `Graph` that the builder uses, as a class with a node map and an edge map:
  - `add_node` merges attributes, and the last write wins per key;
  - `add_edge` creates missing endpoints and overwrites the `type` of an
    existing edge;
  - an edge is keyed by the set of its two endpoints.
- `P2nDescriptor` (`p2n_descriptor.dfy`) holds the descriptor:
  - the fold it computes, `Describe`;
  - the method that runs its loops, `CreatePureNode`;
  - the surrogate allocator that stands in for `uuid4()`.
- `P2nMaterializer` (`p2n_materializer.dfy`) holds the two graph-building
  procedures:
  - as imperative methods on the graph object, with loops and invariants;
  - as specification functions that list, in order, the `add_node` /
    `add_edge` insertions each step makes.

  Every method is proved equal to its function.
- `P2nProperties` (`p2n_properties.dfy`) holds what the builder guarantees:
  - the owner-history filter;
  - aggregate and inverse expansion;
  - the last-write-wins edge labels;
  - the invariant of a whole build. Every edge endpoint is a node, and every
    node keyed by a STEP id holds exactly its entity's descriptor, however
    often `add_node` merged into it.

Behaviours of `p2n.py` and `nx.Graph` the model keeps:

- Every call site leaves `hierarchy` at its default `True` (p2n.py:48, 57, 63,
  72). So `labels` is the supertype list, not the concrete type alone.
- The graph is `nx.Graph()` (ifc-graph.py:61), which is undirected and simple:
  - a second edge between the same two nodes replaces the first one's `type`
    instead of adding a parallel edge;
  - an edge from B to A is the same edge as one from A to B.
- `add_node` on an existing node merges the new record in, so the last write
  wins per key. Because every STEP-id record is the same descriptor, this
  changes nothing for such nodes (`P2nProperties.AddFittingNode`).
- An id-0 instance gets a new surrogate node every time it is reached. Its
  node key and its record's `id` are two different surrogates (p2n.py:26, 47).

## Model

| member | source | states |
|---|---|---|
| P2nDescriptor.CreatePureNode | p2n.py:24-44 | The record built is `Describe` of the entity; one surrogate is drawn exactly when the id is 0 |
| P2nDescriptor.SurrogateAllocator.constructor | p2n.py:22 | The allocator starts at the given counter |
| P2nDescriptor.SurrogateAllocator.Fresh | p2n.py:26 | Each surrogate handed out is new: the counter moves past it |
| P2nDescriptor.ResolveKey | p2n.py:47 | The node key is the STEP id when it is nonzero, otherwise a fresh surrogate |
| P2nDescriptor.SupertypeLabelsMembers | p2n.py:29-34 | A name is in `labels` iff it is in `types_with_super()` and the entity `is_a` it |
| P2nDescriptor.SupertypeLabelsCounts | p2n.py:29-34 | Each satisfied supertype appears in `labels` as often as in the type list; an unsatisfied one never appears |
| P2nDescriptor.SupertypeLabelsOrdered | p2n.py:31-33 | `labels` keeps the order of `types_with_super()`: it is a subsequence of it |
| P2nDescriptor.WithPlainFieldsKeys | p2n.py:38-43 | The keys the field loop adds are exactly the names of the fields whose kind is not entity, aggregate of entity or derived |
| P2nDescriptor.WithPlainFieldsLastWrite | p2n.py:39-43 | A key written by several fields holds the raw value of the last of them |
| P2nDescriptor.WithPlainFieldsUntouched | p2n.py:38-43 | A key no simple field writes keeps its value, or stays absent |
| P2nDescriptor.DescribeKeys | p2n.py:25-43 | The record's keys are `id`, `name`, `labels` and the simple fields' names, and no other: no compound field leaks in |
| P2nDescriptor.DescribeFieldValue | p2n.py:40-43 | Every simple field's name maps to its raw value, unless a later field of the same name overwrites it |
| P2nDescriptor.DescribeHeader | p2n.py:25-36 | `id` is the STEP id, or the surrogate drawn when the id is 0; `name` is the type; `labels` is `[type]` without hierarchy and the supertype filter with it |
| P2nDescriptor.DescribeDeterministic | p2n.py:24-44 | For a nonzero id the record does not depend on the allocator; for id 0 two allocator states give two different records |
| NxGraph.AddNodeMerges | ifc-graph.py:61 | `add_node` adds the node or merges into it: new attributes win, others are kept, other nodes and all edges are unchanged |
| NxGraph.AddEdgeSets | ifc-graph.py:61 | `add_edge` adds missing endpoints with empty records and sets the `type` of the undirected edge; everything else is unchanged |
| NxGraph.AddEdgeUndirected | ifc-graph.py:61 | Adding u–v is the same as adding v–u |
| NxGraph.Graph.AddNode | p2n.py:49 | The graph after `add_node` is `AddNodeTo` of the graph before |
| NxGraph.Graph.AddEdge | p2n.py:59 | The graph after `add_edge` is `AddEdgeTo` of the graph before |
| NxGraph.Graph.constructor | ifc-graph.py:61 | `nx.Graph()` is empty |
| P2nMaterializer.CanonicalIsTargets | p2n.py:69-70 | In a well-formed file the `by_id` lookup gives back the very instance the inverse role holds |
| P2nMaterializer.AddNeighbor | p2n.py:56-59 | Inserting one neighbour makes exactly the insertion `Neighbor` lists |
| P2nMaterializer.AddNeighbors | p2n.py:61-65 | The loop over an aggregate's members makes exactly the insertions `NeighborLinks` lists, in member order |
| P2nMaterializer.AddFieldEdges | p2n.py:51-65 | One field makes exactly the insertions `FieldLinks` lists, including the owner-history skip |
| P2nMaterializer.AddForwardEdges | p2n.py:50-65 | The field loop makes exactly the insertions `ForwardLinks` lists, field after field |
| P2nMaterializer.AddRoleEdges | p2n.py:67-74 | One inverse role makes exactly the insertions `RoleLinks` lists; an empty role makes none |
| P2nMaterializer.AddInverseEdges | p2n.py:66-74 | The role loop makes exactly the insertions `InverseLinks` lists, role after role |
| P2nMaterializer.CreateGraphFromEntity | p2n.py:46-75 | One entity step leaves the graph and allocator `EntityGraph` describes |
| P2nMaterializer.CreateFullGraph | p2n.py:77-85 | The whole walk leaves the graph and allocator `FullGraph` describes over `entity_names()` |
| P2nMaterializer.AttachAllAppend | p2n.py:50-74 | Insertions made one run after another equal the insertions of the concatenated runs |
| P2nProperties.NeighborLinksInOrder | p2n.py:61-65 | One insertion per target, in order, each labelled with the edge type and standing for its target; surrogates are fresh and increasing; no surrogate is drawn when every id is nonzero |
| P2nProperties.AggregateExpansion | p2n.py:51-65 | An aggregate yields one insertion per member, in order, labelled with the field name; a null or empty one yields nothing |
| P2nProperties.OwnerHistoryFilter | p2n.py:51-59 | A reference to an `IfcOwnerHistory` from a non-project adds nothing; any other non-null reference adds one insertion labelled with the field name; a null one adds nothing |
| P2nProperties.ScalarFieldsAddNothing | p2n.py:52-60 | Simple and derived fields add no node and no edge |
| P2nProperties.InverseRoleEdges | p2n.py:66-74 | A role yields one insertion per member, in order, labelled with the role name, keyed by the member's STEP id with the `by_id` instance's descriptor; no surrogate is drawn |
| P2nProperties.ForwardLinksSources | p2n.py:52-65 | Every forward edge is labelled with the name of an entity or aggregate-of-entity field |
| P2nProperties.KeysOfMembers | p2n.py:58-73 | The keys a run of insertions reaches are exactly its links' keys |
| P2nProperties.KeysOfAppend | p2n.py:50-74 | The keys two runs reach one after the other are the keys each reaches |
| P2nProperties.EdgesOfMembers | p2n.py:59-74 | A run from one node joins it to every key reached, and every edge it makes touches that node |
| P2nProperties.AttachAllNodeKeys | p2n.py:58-74 | After a run the nodes are the old ones, the source and every reached key, and nothing else |
| P2nProperties.AttachAllEdgeKeys | p2n.py:59-74 | After a run the edges are the old ones and one per reached key, and nothing else |
| P2nProperties.AttachAllLastLabelWins | p2n.py:59-74 | The edge to a key carries the label of the last insertion that reached it |
| P2nProperties.AttachAllTouches | p2n.py:59-74 | Every edge a run adds touches its source, and the source is joined to every reached key |
| P2nProperties.RoleReach | p2n.py:69-74 | Every member of an inverse role is reached under its STEP id |
| P2nProperties.InverseLinksReach | p2n.py:66-74 | Every member of every inverse role is reached under its STEP id |
| P2nProperties.FieldReached | p2n.py:52-65 | A field reaches, under its STEP id, the target the owner-history filter lets through or any aggregate member |
| P2nProperties.ForwardLinksReach | p2n.py:49-65 | The field loop reaches every instance with a STEP id that one of the fields leads to |
| P2nProperties.InverseMembersReached | p2n.py:50-74 | The inverse members are reached whatever forward insertions come before them |
| P2nProperties.EntityGraphEdges | p2n.py:46-75 | An entity step keeps every edge, only adds edges that touch the entity, and joins the entity to every instance with a STEP id that a field leads to (past the owner-history filter) and to every inverse-role member |
| P2nProperties.NeighborKeyMatchesId | p2n.py:56-57 | A neighbour's node key equals its record's `id` iff its STEP id is nonzero |
| P2nProperties.EntityKeyMatchesId | p2n.py:47-48 | The same for the entity a step starts from |
| P2nProperties.EmptyWellBuilt | p2n.py:77 | The empty graph `nx.Graph()` satisfies the build invariant |
| P2nProperties.AddFittingNode | p2n.py:49-73 | Merging a descriptor into its own node keeps the build invariant and the node |
| P2nProperties.AttachAllWellBuilt | p2n.py:58-74 | A run of fitting insertions keeps the build invariant and removes nothing |
| P2nProperties.NeighborLinksFit | p2n.py:56-65 | Every neighbour insertion fits the build invariant |
| P2nProperties.FieldLinksFit | p2n.py:51-65 | Every insertion one field makes fits the build invariant |
| P2nProperties.ForwardLinksFit | p2n.py:50-65 | Every forward insertion fits the build invariant |
| P2nProperties.InverseLinksFit | p2n.py:66-74 | Every inverse insertion fits the build invariant |
| P2nProperties.FreshSurrogatesAppend | p2n.py:47-74 | Two runs of fresh surrogates drawn one after the other stay fresh and increasing together |
| P2nProperties.NeighborLinksFresh | p2n.py:56-65 | The surrogates a run of neighbours draws lie between the old and new counter and increase |
| P2nProperties.FieldLinksFresh | p2n.py:52-65 | The surrogates one field draws lie between the old and new counter and increase |
| P2nProperties.ForwardLinksFresh | p2n.py:49-65 | The surrogates the field loop draws lie between the old and new counter and increase across fields |
| P2nProperties.InverseLinksFresh | p2n.py:66-74 | The surrogates the role loop draws lie between the old and new counter and increase across roles |
| P2nProperties.EntityStepFreshSurrogates | p2n.py:46-75 | On a well-built graph, every surrogate an entity step draws is new to the graph, differs from the entity's key and from every other surrogate of the step |
| P2nProperties.EntityGraphWellBuilt | p2n.py:46-75 | An entity step keeps the invariant, removes nothing and leaves the entity's node in the graph |
| P2nProperties.FullGraphAppend | p2n.py:80-83 | The walk visits the ids in order: a longer list continues from where the shorter one stopped |
| P2nProperties.FullGraphWellBuilt | p2n.py:77-85 | The walk keeps the invariant, removes nothing, and every visited id is a node |
| P2nProperties.BuildFromEmpty | p2n.py:77-85 | On a fresh graph: every id of `entity_names()` is a node, every edge endpoint is a node, and every STEP-id node holds exactly its entity's descriptor |

## Left out

- `ifc-graph.py` is not part of this model beyond the `nx.Graph()` it builds: argument parsing, the `ONLY_PLOT` flag, `ifcopenshell.open`, pyvis plotting and the edge-list file I/O are I/O and library wrappers.
- The `opd` module is not part of this model; its source is not available.
- `uuid4()` is replaced by a counter: a surrogate is a number the allocator has not handed out before, not a random 128-bit string.
- The decoder internals (`types_with_super`, `get_argument_type`, `get_argument_name`, `get_argument`, `get_inverse`, `by_id`, `entity_names`) are given data, not computed from a STEP file.
- `Decoder.Valid` is a precondition: ids are nonzero and unique, and `by_id` succeeds for every listed id and every inverse member. The lookup failure `by_id` would raise is not modelled.
- The progress `print` and the `idx` / `length` counters of `create_full_graph` are observability only.
- Raw attribute values are opaque text; their Python types are not modelled.
- The truth test on an attribute (p2n.py:51) is modelled as "not null" for references and "not null and non-empty" for aggregates; for simple attributes its outcome does not matter, because they add no edge.
- The edge attribute dictionary is reduced to its single key, `type`.
- The node records of endpoints that `add_edge` creates are empty; the builder always calls `add_node` first, so this case does not arise for its own edges.
- The graph is modelled as values inside one graph object; aliasing of that object with other code is not modelled.
- `Entity.satisfies` is left unconstrained: nothing requires that an entity is an instance of its own type (`typeName in satisfies`) or of that type's supertypes. No proved property depends on it; `labels` is whatever `is_a` answers.
