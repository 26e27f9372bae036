/**
 The part of networkx's undirected simple `Graph` that the graph builder
 relies on: `add_node` merges the given attributes into an existing node
 (the last write wins per key), and `add_edge` creates missing endpoints with
 no attributes and overwrites the `type` of an existing edge. An edge is keyed
 by the set of its endpoints, so `{u, v}` and `{v, u}` are the same edge and a
 self-loop is the singleton `{u}`. The edge attribute dictionary is reduced to
 its one key, `type`.
 */
module NxGraph {

  type Attrs<A> = map<string, A>

  datatype GraphValue<K(==), A> = GraphValue(nodes: map<K, Attrs<A>>, edges: map<set<K>, string>)

  function Empty<K(==), A>(): GraphValue<K, A> {
    GraphValue(map[], map[])
  }

  /** `graph.add_node(n, **attrs)` */
  function AddNodeTo<K(==), A>(g: GraphValue<K, A>, n: K, attrs: Attrs<A>): GraphValue<K, A> {
    GraphValue(g.nodes[n := if n in g.nodes then g.nodes[n] + attrs else attrs], g.edges)
  }

  /** `graph.add_edge(u, v, type=edgeType)` */
  function AddEdgeTo<K(==), A>(g: GraphValue<K, A>, u: K, v: K, edgeType: string): GraphValue<K, A> {
    var withU := if u in g.nodes then g.nodes else g.nodes[u := map[]];
    var withUV := if v in withU then withU else withU[v := map[]];
    GraphValue(withUV, g.edges[{u, v} := edgeType])
  }

  /**
   `add_node` adds the node or merges into it: a key of the new attributes
   takes the new value, every other key of the node keeps its old one, and
   other nodes and all edges are unchanged.
   */
  lemma AddNodeMerges<K, A>(g: GraphValue<K, A>, n: K, attrs: Attrs<A>)
    ensures var r := AddNodeTo(g, n, attrs);
      && r.nodes.Keys == g.nodes.Keys + {n}
      && (forall k :: k in r.nodes[n] <==> k in attrs || (n in g.nodes && k in g.nodes[n]))
      && (forall k :: k in attrs ==> r.nodes[n][k] == attrs[k])
      && (n in g.nodes ==> forall k :: k in g.nodes[n] && k !in attrs ==> r.nodes[n][k] == g.nodes[n][k])
      && (forall m :: m in g.nodes && m != n ==> r.nodes[m] == g.nodes[m])
      && r.edges == g.edges
  {
  }

  /**
   `add_edge` adds the endpoints that are missing, with no attributes, and sets
   the `type` of the edge between them; every other node and edge is unchanged.
   */
  lemma AddEdgeSets<K, A>(g: GraphValue<K, A>, u: K, v: K, edgeType: string)
    ensures var r := AddEdgeTo(g, u, v, edgeType);
      && r.nodes.Keys == g.nodes.Keys + {u, v}
      && (forall m :: m in g.nodes ==> r.nodes[m] == g.nodes[m])
      && (forall m :: m in r.nodes && m !in g.nodes ==> r.nodes[m] == map[])
      && r.edges.Keys == g.edges.Keys + {{u, v}}
      && r.edges[{u, v}] == edgeType
      && (forall p :: p in g.edges && p != {u, v} ==> r.edges[p] == g.edges[p])
  {
  }

  /** The graph is undirected: the order of the endpoints does not matter. */
  lemma AddEdgeUndirected<K, A>(g: GraphValue<K, A>, u: K, v: K, edgeType: string)
    ensures AddEdgeTo(g, u, v, edgeType) == AddEdgeTo(g, v, u, edgeType)
  {
    assert {u, v} == {v, u};
  }

  /** Nothing is ever removed: `h` has every node and every edge of `g`. */
  ghost predicate Extends<K, A>(g: GraphValue<K, A>, h: GraphValue<K, A>) {
    g.nodes.Keys <= h.nodes.Keys && g.edges.Keys <= h.edges.Keys
  }

  /** The networkx graph object; the builder only ever inserts into it. */
  class Graph<K(==), A> {
    var nodes: map<K, Attrs<A>>
    var edges: map<set<K>, string>

    function Value(): GraphValue<K, A>
      reads this
    {
      GraphValue(nodes, edges)
    }

    /** `nx.Graph()` */
    constructor ()
      ensures Value() == Empty()
    {
      nodes := map[];
      edges := map[];
    }

    method AddNode(n: K, attrs: Attrs<A>)
      modifies this
      ensures Value() == AddNodeTo(old(Value()), n, attrs)
    {
      if n in nodes {
        nodes := nodes[n := nodes[n] + attrs];
      } else {
        nodes := nodes[n := attrs];
      }
    }

    method AddEdge(u: K, v: K, edgeType: string)
      modifies this
      ensures Value() == AddEdgeTo(old(Value()), u, v, edgeType)
    {
      if u !in nodes {
        nodes := nodes[u := map[]];
      }
      if v !in nodes {
        nodes := nodes[v := map[]];
      }
      edges := edges[{u, v} := edgeType];
    }
  }
}
