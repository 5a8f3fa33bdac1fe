/** The knowledge graph: the part of networkx's undirected simple graph
    (`nx.Graph`) that the chatbot uses. A graph is its nodes in insertion
    order and its edges, each carrying a `relation` label, in the order their
    endpoint pair was first connected; there is at most one edge per
    unordered pair, and an edge from a node to itself is allowed. */
module Graphs {
  import opened Wrappers

  /** An edge between `u` and `v` carrying the attribute `relation`. */
  datatype Edge = Edge(u: string, v: string, relation: string)

  datatype GraphState = GraphState(nodes: seq<string>, edges: seq<Edge>)

  /** `e` connects the unordered pair `a`, `b`. */
  predicate Links(e: Edge, a: string, b: string)
  {
    (e.u == a && e.v == b) || (e.u == b && e.v == a)
  }

  /** Nodes are distinct, edge endpoints are nodes, no pair has two edges. */
  ghost predicate Valid(g: GraphState)
  {
    (forall i, j :: 0 <= i < j < |g.nodes| ==> g.nodes[i] != g.nodes[j])
    && (forall k :: 0 <= k < |g.edges| ==> g.edges[k].u in g.nodes && g.edges[k].v in g.nodes)
    && (forall i, j :: 0 <= i < j < |g.edges| ==> !Links(g.edges[j], g.edges[i].u, g.edges[i].v))
  }

  /** Index of the first edge at or after `k` connecting `a` and `b`. */
  function FindEdgeFrom(es: seq<Edge>, a: string, b: string, k: nat): (r: Option<nat>)
    requires k <= |es|
    ensures r.Some? ==> k <= r.value < |es| && Links(es[r.value], a, b)
    ensures r.Some? ==> forall j :: k <= j < r.value ==> !Links(es[j], a, b)
    ensures r.None? ==> forall j :: k <= j < |es| ==> !Links(es[j], a, b)
    decreases |es| - k
  {
    if k == |es| then None
    else if Links(es[k], a, b) then Some(k)
    else FindEdgeFrom(es, a, b, k + 1)
  }

  /** Index of the edge connecting `a` and `b`, if any. */
  function FindEdge(es: seq<Edge>, a: string, b: string): (r: Option<nat>)
    ensures r.Some? ==> r.value < |es| && Links(es[r.value], a, b)
    ensures r.Some? ==> forall j :: 0 <= j < r.value ==> !Links(es[j], a, b)
    ensures r.None? ==> forall j :: 0 <= j < |es| ==> !Links(es[j], a, b)
  {
    FindEdgeFrom(es, a, b, 0)
  }

  /** The `relation` attribute of the edge between `a` and `b`, if there is one. */
  function RelationOf(g: GraphState, a: string, b: string): Option<string>
  {
    match FindEdge(g.edges, a, b)
    case None => None
    case Some(k) => Some(g.edges[k].relation)
  }

  /** Adding a node that is already present changes nothing. */
  function AddNode(g: GraphState, n: string): (r: GraphState)
    ensures n in r.nodes && g.nodes <= r.nodes && r.edges == g.edges
    ensures forall x :: x in r.nodes ==> x in g.nodes || x == n
    ensures Valid(g) ==> Valid(r)
  {
    if n in g.nodes then g else g.(nodes := g.nodes + [n])
  }

  /** `add_nodes_from`: every node of `ns` is present afterwards, the old
      nodes keep their order, and nothing else is added. */
  function AddNodes(g: GraphState, ns: seq<string>): (r: GraphState)
    ensures g.nodes <= r.nodes && r.edges == g.edges
    ensures forall x :: x in ns ==> x in r.nodes
    ensures forall x :: x in r.nodes ==> x in g.nodes || x in ns
    ensures Valid(g) ==> Valid(r)
    decreases |ns|
  {
    if ns == [] then g else AddNodes(AddNode(g, ns[0]), ns[1..])
  }

  /** Adding distinct new nodes appends them in order. */
  lemma {:induction false} AddNodesNew(g: GraphState, ns: seq<string>)
    requires forall i, j :: 0 <= i < j < |ns| ==> ns[i] != ns[j]
    requires forall k :: 0 <= k < |ns| ==> ns[k] !in g.nodes
    ensures AddNodes(g, ns) == GraphState(g.nodes + ns, g.edges)
    decreases |ns|
  {
    if ns != [] {
      var h := GraphState(g.nodes + [ns[0]], g.edges);
      assert AddNode(g, ns[0]) == h;
      FreshTail(g.nodes, ns);
      AddNodesNew(h, ns[1..]);
      AppendFirst(g.nodes, ns);
    }
  }

  /** Appending the first element and then the rest appends the whole. */
  lemma AppendFirst(a: seq<string>, ns: seq<string>)
    requires ns != []
    ensures a + [ns[0]] + ns[1..] == a + ns
  {
    assert [ns[0]] + ns[1..] == ns;
  }

  /** The rest of a sequence of distinct new nodes is still distinct and new
      once its first node has been appended. */
  lemma FreshTail(nodes: seq<string>, ns: seq<string>)
    requires ns != []
    requires forall i, j :: 0 <= i < j < |ns| ==> ns[i] != ns[j]
    requires forall k :: 0 <= k < |ns| ==> ns[k] !in nodes
    ensures forall i, j :: 0 <= i < j < |ns[1..]| ==> ns[1..][i] != ns[1..][j]
    ensures forall k :: 0 <= k < |ns[1..]| ==> ns[1..][k] !in nodes + [ns[0]]
  {
    forall k | 0 <= k < |ns[1..]| ensures ns[1..][k] !in nodes + [ns[0]] {
      assert ns[1..][k] == ns[k + 1];
    }
  }

  /** Searching for a pair gives the same index in two edge lists whose
      edges connect the same pairs position by position. */
  lemma FindEdgeSamePairs(es: seq<Edge>, fs: seq<Edge>, a: string, b: string)
    requires |es| == |fs|
    requires forall k :: 0 <= k < |es| ==> es[k].u == fs[k].u && es[k].v == fs[k].v
    ensures FindEdge(es, a, b) == FindEdge(fs, a, b)
  {
  }

  /** Appending an edge that does not connect `a` and `b` does not change
      where the edge between `a` and `b` is found. */
  lemma FindEdgeAppend(es: seq<Edge>, e: Edge, a: string, b: string)
    requires !Links(e, a, b)
    ensures FindEdge(es + [e], a, b) == FindEdge(es, a, b)
  {
    forall j | 0 <= j < |es| ensures (es + [e])[j] == es[j] {
    }
    assert (es + [e])[|es|] == e;
  }

  /** `add_edge(u, v, relation=rel)`: adds the endpoints that are new, then
      either relabels the existing edge between `u` and `v` in place or
      appends a new one; no edge changes its endpoints or its position. */
  function AddEdge(g: GraphState, u: string, v: string, rel: string): (r: GraphState)
    ensures r.nodes == AddNode(AddNode(g, u), v).nodes
    ensures |g.edges| <= |r.edges| <= |g.edges| + 1
    ensures forall k :: 0 <= k < |g.edges| ==> r.edges[k].u == g.edges[k].u && r.edges[k].v == g.edges[k].v
  {
    var h := AddNode(AddNode(g, u), v);
    match FindEdge(h.edges, u, v)
    case Some(k) => h.(edges := h.edges[k := h.edges[k].(relation := rel)])
    case None => h.(edges := h.edges + [Edge(u, v, rel)])
  }

  /** After `add_edge(u, v, relation=rel)` the pair `u`, `v` carries `rel`
      and every other pair keeps the relation it had. */
  lemma AddEdgeRelation(g: GraphState, u: string, v: string, rel: string, a: string, b: string)
    ensures RelationOf(AddEdge(g, u, v, rel), a, b)
         == if Links(Edge(u, v, rel), a, b) then Some(rel) else RelationOf(g, a, b)
  {
    var h := AddNode(AddNode(g, u), v);
    var r := AddEdge(g, u, v, rel);
    match FindEdge(h.edges, u, v)
    case Some(k) =>
      FindEdgeSamePairs(r.edges, h.edges, a, b);
      FindEdgeSamePairs(r.edges, h.edges, u, v);
    case None =>
      var e := Edge(u, v, rel);
      if Links(e, a, b) {
        assert Links(r.edges[|h.edges|], a, b);
      } else {
        FindEdgeAppend(h.edges, e, a, b);
      }
  }

  /** Connecting two present nodes that have no edge between them appends
      the edge and adds no node. */
  lemma AddEdgeNewPair(g: GraphState, u: string, v: string, rel: string)
    requires u in g.nodes && v in g.nodes
    requires forall k :: 0 <= k < |g.edges| ==> !Links(g.edges[k], u, v)
    ensures AddEdge(g, u, v, rel) == GraphState(g.nodes, g.edges + [Edge(u, v, rel)])
  {
  }

  /** Connecting a present node to a new one appends the new node and the edge. */
  lemma AddEdgeNewValue(g: GraphState, u: string, v: string, rel: string)
    requires u in g.nodes && v !in g.nodes
    requires forall k :: 0 <= k < |g.edges| ==> g.edges[k].u != v && g.edges[k].v != v
    ensures AddEdge(g, u, v, rel) == GraphState(g.nodes + [v], g.edges + [Edge(u, v, rel)])
  {
    assert FindEdge(g.edges + [], u, v).None?;
    assert AddNode(AddNode(g, u), v).edges == g.edges;
  }

  /** `add_edge` keeps the graph simple: distinct nodes, endpoints present,
      one edge per pair. */
  lemma AddEdgeValid(g: GraphState, u: string, v: string, rel: string)
    requires Valid(g)
    ensures Valid(AddEdge(g, u, v, rel))
  {
    var h := AddNode(AddNode(g, u), v);
    assert Valid(h) && u in h.nodes && v in h.nodes;
    match FindEdge(h.edges, u, v)
    case Some(k) =>
      RelabelValid(h, k, rel);
    case None =>
      AppendValid(h, Edge(u, v, rel));
  }

  /** Relabelling an edge in place keeps a graph simple. */
  lemma RelabelValid(h: GraphState, k: nat, rel: string)
    requires Valid(h) && k < |h.edges|
    ensures Valid(h.(edges := h.edges[k := h.edges[k].(relation := rel)]))
  {
    var r := h.(edges := h.edges[k := h.edges[k].(relation := rel)]);
    assert forall j :: 0 <= j < |r.edges| ==> r.edges[j].u == h.edges[j].u && r.edges[j].v == h.edges[j].v;
  }

  /** Appending an edge between two nodes of a simple graph that are not yet
      connected keeps it simple. */
  lemma AppendValid(h: GraphState, e: Edge)
    requires Valid(h) && e.u in h.nodes && e.v in h.nodes
    requires forall j :: 0 <= j < |h.edges| ==> !Links(h.edges[j], e.u, e.v)
    ensures Valid(h.(edges := h.edges + [e]))
  {
    var r := h.(edges := h.edges + [e]);
    forall i, j | 0 <= i < j < |r.edges|
      ensures !Links(r.edges[j], r.edges[i].u, r.edges[i].v)
    {
      if j == |h.edges| {
        assert !Links(h.edges[i], e.u, e.v);
      } else {
        assert r.edges[i] == h.edges[i] && r.edges[j] == h.edges[j];
      }
    }
    forall k | 0 <= k < |r.edges|
      ensures r.edges[k].u in r.nodes && r.edges[k].v in r.nodes
    {
      if k < |h.edges| {
        assert r.edges[k] == h.edges[k];
      }
    }
  }

  /** `add_edges_from`, one `add_edge` per element in order: the old nodes
      keep their order, every endpoint given is a node afterwards, at most
      one edge per element is added, and no stored edge changes its
      endpoints or position. */
  function AddEdges(g: GraphState, es: seq<Edge>): (r: GraphState)
    ensures g.nodes <= r.nodes
    ensures forall e :: e in es ==> e.u in r.nodes && e.v in r.nodes
    ensures |g.edges| <= |r.edges| <= |g.edges| + |es|
    ensures forall k :: 0 <= k < |g.edges| ==> r.edges[k].u == g.edges[k].u && r.edges[k].v == g.edges[k].v
    decreases |es|
  {
    if es == [] then g else AddEdges(AddEdge(g, es[0].u, es[0].v, es[0].relation), es[1..])
  }

  /** Adding the edges from position `i` on is adding edge `i`, then the rest. */
  lemma AddEdgesFirst(g: GraphState, es: seq<Edge>, i: nat)
    requires i < |es|
    ensures AddEdges(g, es[i..]) == AddEdges(AddEdge(g, es[i].u, es[i].v, es[i].relation), es[i + 1..])
  {
    assert es[i..][1..] == es[i + 1..];
  }

  /** Adding two batches of edges is adding their concatenation. */
  lemma {:induction false} AddEdgesConcat(g: GraphState, es: seq<Edge>, fs: seq<Edge>)
    ensures AddEdges(g, es + fs) == AddEdges(AddEdges(g, es), fs)
    decreases |es|
  {
    if es != [] {
      assert (es + fs)[1..] == es[1..] + fs;
      AddEdgesConcat(AddEdge(g, es[0].u, es[0].v, es[0].relation), es[1..], fs);
    } else {
      assert es + fs == fs;
    }
  }

  /** `add_edges_from` keeps the graph simple. */
  lemma {:induction false} AddEdgesValid(g: GraphState, es: seq<Edge>)
    requires Valid(g)
    ensures Valid(AddEdges(g, es))
    decreases |es|
  {
    if es != [] {
      AddEdgeValid(g, es[0].u, es[0].v, es[0].relation);
      AddEdgesValid(AddEdge(g, es[0].u, es[0].v, es[0].relation), es[1..]);
    }
  }

  /** The relation the last edge of `es` between `a` and `b` carries, if any. */
  function LastRelation(es: seq<Edge>, a: string, b: string): Option<string>
    decreases |es|
  {
    if es == [] then None
    else match LastRelation(es[1..], a, b)
      case Some(rel) => Some(rel)
      case None => if Links(es[0], a, b) then Some(es[0].relation) else None
  }

  /** Adding edges one by one leaves each pair with the relation of the last
      added edge between them: a repeated pair is relabelled, never doubled. */
  lemma {:induction false} AddEdgesRelation(g: GraphState, es: seq<Edge>, a: string, b: string)
    ensures RelationOf(AddEdges(g, es), a, b)
         == match LastRelation(es, a, b) case Some(rel) => Some(rel) case None => RelationOf(g, a, b)
    decreases |es|
  {
    if es != [] {
      var h := AddEdge(g, es[0].u, es[0].v, es[0].relation);
      AddEdgesRelation(h, es[1..], a, b);
      AddEdgeRelation(g, es[0].u, es[0].v, es[0].relation, a, b);
    }
  }

  /** `e` has `n` as an endpoint. */
  predicate Touches(e: Edge, n: string)
  {
    e.u == n || e.v == n
  }

  /** `e` reported from `n`'s side, as networkx reports `(n, neighbour, data)`. */
  function Oriented(e: Edge, n: string): Edge
  {
    if e.u == n then e else Edge(n, e.u, e.relation)
  }

  /** The edges of `es` touching `n`, in order, each seen from `n`. */
  function IncidentIn(es: seq<Edge>, n: string): (r: seq<Edge>)
    ensures |r| <= |es|
    ensures forall k :: 0 <= k < |r| ==> r[k].u == n
    decreases |es|
  {
    if es == [] then []
    else (if Touches(es[0], n) then [Oriented(es[0], n)] else []) + IncidentIn(es[1..], n)
  }

  /** The edges at `n` in two lists, one after the other, are those of the
      first list followed by those of the second: the report keeps the order
      of the edge list. */
  lemma {:induction false} IncidentInConcat(es: seq<Edge>, fs: seq<Edge>, n: string)
    ensures IncidentIn(es + fs, n) == IncidentIn(es, n) + IncidentIn(fs, n)
    decreases |es|
  {
    if es == [] {
      assert es + fs == fs;
    } else {
      assert (es + fs)[1..] == es[1..] + fs;
      IncidentInConcat(es[1..], fs, n);
    }
  }

  /** One edge is reported once, seen from `n`, when it touches `n`, and
      not at all otherwise; a self-loop at `n` is reported once. */
  lemma IncidentInSingle(e: Edge, n: string)
    ensures IncidentIn([e], n) == if Touches(e, n) then [Oriented(e, n)] else []
    ensures e.u == n && e.v == n ==> IncidentIn([e], n) == [e]
  {
    assert [e][1..] == [];
  }

  /** `edges(n, data=True)`: the edges at `n`, each oriented with `n` first,
      in the order of the edge list; a self-loop is reported once. */
  function Incident(g: GraphState, n: string): (r: seq<Edge>)
    ensures |r| <= |g.edges|
    ensures forall e :: e in r
              <==> exists k :: 0 <= k < |g.edges| && Touches(g.edges[k], n) && e == Oriented(g.edges[k], n)
  {
    IncidentInAll(g.edges, n);
    IncidentIn(g.edges, n)
  }

  /** The edges reported at `n` are exactly the stored edges touching `n`,
      seen from `n`. */
  lemma {:induction false} IncidentInMembers(es: seq<Edge>, n: string, e: Edge)
    ensures e in IncidentIn(es, n)
        <==> exists k :: 0 <= k < |es| && Touches(es[k], n) && e == Oriented(es[k], n)
    decreases |es|
  {
    if es != [] {
      IncidentInMembers(es[1..], n, e);
      if e in IncidentIn(es[1..], n) {
        var k :| 0 <= k < |es[1..]| && Touches(es[1..][k], n) && e == Oriented(es[1..][k], n);
        assert es[k + 1] == es[1..][k];
      }
      if exists k :: 0 <= k < |es| && Touches(es[k], n) && e == Oriented(es[k], n) {
        var k :| 0 <= k < |es| && Touches(es[k], n) && e == Oriented(es[k], n);
        if k > 0 {
          assert es[1..][k - 1] == es[k];
        }
      }
    }
  }

  /** `IncidentInMembers` for every edge at once. */
  lemma IncidentInAll(es: seq<Edge>, n: string)
    ensures forall e :: e in IncidentIn(es, n)
              <==> exists k :: 0 <= k < |es| && Touches(es[k], n) && e == Oriented(es[k], n)
  {
    forall e
      ensures e in IncidentIn(es, n)
          <==> exists k :: 0 <= k < |es| && Touches(es[k], n) && e == Oriented(es[k], n)
    {
      IncidentInMembers(es, n, e);
    }
  }

  /** The mutable graph object the chatbot builds. */
  class Graph {
    var nodes: seq<string>
    var edges: seq<Edge>

    function State(): GraphState
      reads this
    {
      GraphState(nodes, edges)
    }

    /** `nx.Graph()`: an empty graph. */
    constructor ()
      ensures State() == GraphState([], [])
    {
      nodes, edges := [], [];
    }

    /** `add_nodes_from(ns)`: each node not yet present is appended. */
    method AddNodesFrom(ns: seq<string>)
      modifies this
      ensures State() == AddNodes(old(State()), ns)
    {
      for i := 0 to |ns|
        invariant AddNodes(State(), ns[i..]) == AddNodes(old(State()), ns)
      {
        assert ns[i..][1..] == ns[i + 1..];
        if ns[i] !in nodes {
          nodes := nodes + [ns[i]];
        }
      }
    }

    /** `add_edges_from(es)`: one `add_edge` per edge, in order. */
    method AddEdgesFrom(es: seq<Edge>)
      modifies this
      ensures State() == AddEdges(old(State()), es)
    {
      for i := 0 to |es|
        invariant AddEdges(State(), es[i..]) == AddEdges(old(State()), es)
      {
        AddEdgesFirst(State(), es, i);
        AddEdgeTo(es[i]);
      }
    }

    /** `add_edge(u, v, relation=rel)`: the endpoints not yet present are
        appended, then the pair's edge is relabelled or a new edge appended. */
    method AddEdgeTo(e: Edge)
      modifies this
      ensures State() == AddEdge(old(State()), e.u, e.v, e.relation)
    {
      if e.u !in nodes {
        nodes := nodes + [e.u];
      }
      if e.v !in nodes {
        nodes := nodes + [e.v];
      }
      var found := FindEdge(edges, e.u, e.v);
      if found.Some? {
        var k := found.value;
        edges := edges[k := edges[k].(relation := e.relation)];
      } else {
        edges := edges + [e];
      }
    }

    /** `edges(n, data=True)`: exactly the stored edges touching `n`, each
        seen from `n`. */
    function Edges(n: string): (r: seq<Edge>)
      reads this
      ensures forall e :: e in r
                <==> exists k :: 0 <= k < |edges| && Touches(edges[k], n) && e == Oriented(edges[k], n)
    {
      Incident(State(), n)
    }
  }
}
