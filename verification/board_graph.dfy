/**
 * The pinboard's graph as the application sees it through the egui_graphs widget
 * (`PinboardGraph`, src/graph.rs:164): nodes carrying an optional blob and a label (`text`),
 * undirected edges carrying a `Conn` and a label, and the widget's current selection.
 * Index allocation and removal are the library's; removing a node drops its edges.
 */
module BoardGraph {
  import opened Wrappers
  import opened Graph

  type NodeId = nat
  type EdgeId = nat

  datatype NodeData = NodeData(payload: Option<Blob>, text: string)

  datatype EdgeData = EdgeData(a: NodeId, b: NodeId, conn: Conn, text: string)

  /** An undirected edge between `x` and `y`, in either orientation. */
  predicate Joins(d: EdgeData, x: NodeId, y: NodeId)
  {
    (d.a == x && d.b == y) || (d.a == y && d.b == x)
  }

  predicate Touches(d: EdgeData, n: NodeId)
  {
    d.a == n || d.b == n
  }

  /** The elements of `s` that lie in `keep`, in their order. */
  function Keep(s: seq<nat>, keep: set<nat>): (r: seq<nat>)
    ensures forall x :: x in r <==> x in s && x in keep
    ensures |r| <= |s|
  {
    if s == [] then [] else (if s[0] in keep then [s[0]] else []) + Keep(s[1..], keep)
  }

  lemma {:induction false} KeepKeep(s: seq<nat>, a: set<nat>, b: set<nat>)
    requires b <= a
    ensures Keep(Keep(s, a), b) == Keep(s, b)
  {
    if s != [] {
      KeepKeep(s[1..], a, b);
      var t := Keep(s, a);
      if s[0] in a {
        assert t == [s[0]] + Keep(s[1..], a);
        assert t != [] && t[0] == s[0] && t[1..] == Keep(s[1..], a);
        assert Keep(t, b) == (if s[0] in b then [s[0]] else []) + Keep(t[1..], b);
      } else {
        assert t == Keep(s[1..], a);
      }
    }
  }

  lemma {:induction false} KeepAll(s: seq<nat>, a: set<nat>)
    requires forall x :: x in s ==> x in a
    ensures Keep(s, a) == s
  {
    if s != [] {
      KeepAll(s[1..], a);
    }
  }

  lemma {:induction false} KeepNone(s: seq<nat>, a: set<nat>)
    requires forall x :: x in s ==> x !in a
    ensures Keep(s, a) == []
  {
    if s != [] {
      KeepNone(s[1..], a);
    }
  }

  datatype PinboardGraph = GraphState(
    nodes: map<NodeId, NodeData>,
    edges: map<EdgeId, EdgeData>,
    selectedNodes: seq<NodeId>,
    selectedEdges: seq<EdgeId>)
  {
    /** Edges join live nodes, and the selection names live nodes and edges. */
    ghost predicate Valid()
    {
      && (forall e :: e in edges ==> edges[e].a in nodes && edges[e].b in nodes)
      && (forall x :: x in selectedNodes ==> x in nodes)
      && (forall e :: e in selectedEdges ==> e in edges)
    }

    /** `find_edge(x, y).is_some()` on the undirected graph. */
    predicate Joined(x: NodeId, y: NodeId)
    {
      exists e :: e in edges && Joins(edges[e], x, y)
    }

    /** `remove_node`: the node and every edge touching it disappear. */
    function RemoveNode(n: NodeId): (g: PinboardGraph)
      ensures g.nodes == nodes - {n}
      ensures forall e :: e in g.edges <==> e in edges && !Touches(edges[e], n)
      ensures forall e :: e in g.edges ==> g.edges[e] == edges[e]
      ensures g.selectedNodes == Keep(selectedNodes, g.nodes.Keys)
      ensures g.selectedEdges == Keep(selectedEdges, g.edges.Keys)
      ensures Valid() ==> g.Valid()
    {
      var es := map e | e in edges && !Touches(edges[e], n) :: edges[e];
      GraphState(nodes - {n}, es, Keep(selectedNodes, nodes.Keys - {n}), Keep(selectedEdges, es.Keys))
    }

    /** `remove_edge`. */
    function RemoveEdge(e: EdgeId): (g: PinboardGraph)
      ensures g.nodes == nodes && g.edges == edges - {e}
      ensures g.selectedNodes == selectedNodes
      ensures g.selectedEdges == Keep(selectedEdges, g.edges.Keys)
      ensures Valid() ==> g.Valid()
    {
      GraphState(nodes, edges - {e}, selectedNodes, Keep(selectedEdges, edges.Keys - {e}))
    }
  }

  const Empty: PinboardGraph := GraphState(map[], map[], [], [])

  /** An index not yet in use: stands for the index the graph library hands out. */
  method AllocateId(used: set<nat>) returns (id: nat)
    ensures id !in used
  {
    id := 0;
    var rest := used;
    while rest != {}
      invariant rest <= used
      invariant forall x :: x in used - rest ==> x < id
      decreases rest
    {
      var x :| x in rest;
      if x >= id {
        id := x + 1;
      }
      assert used - (rest - {x}) == (used - rest) + {x};
      rest := rest - {x};
    }
    assert used - rest == used;
  }
}
