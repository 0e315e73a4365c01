/**
 * One open pinboard (src/pinboard.rs): its title and graph, the file it was saved
 * to, the unsaved-changes flag, and the promise slots of its background work
 * (saving, picking a blob for a node or edge, repairing a blob before opening it).
 * The menus and keyboard shortcuts that trigger the edits below are not modelled;
 * each edit is the branch a click on its menu entry runs.
 */
module Pinboard {
  import opened Wrappers
  import opened Paths
  import opened Graph
  import opened BoardGraph
  import opened Promises

  type Uuid = nat

  /** The graph element a blob promise delivers to. */
  datatype Either = Edge(edge: EdgeId) | Node(node: NodeId)

  /** What a blob promise resolves to: the target element and the blob or the failure. */
  datatype BlobDelivery = BlobDelivery(target: Either, result: Result<Blob, Error>)

  /** A blob whose path has a file name, the only kind a graph element can show. */
  predicate Named(b: Blob)
  {
    FileName(b.path).Some?
  }

  /** A ready delivery in `slot` that succeeded carries a named blob. */
  predicate DeliversNamed(slot: Option<Promise<BlobDelivery>>)
  {
    Fires(slot) && slot.value.value.result.Ok? ==> Named(slot.value.value.result.value)
  }

  /** `add_blob`'s classification of the picked file: `.pinbrd` files are sub-pinboards. */
  function Classify(picked: Path): (t: BlobType)
    ensures t == PinboardGraph <==> Extension(picked) == Some("pinbrd")
  {
    if Extension(picked) == Some("pinbrd") then PinboardGraph else File
  }

  /**
   * `add_blob`: the file the user picked (None: the dialog was dismissed) becomes a
   * blob of the classified type; `contents` is what reading that file produced.
   */
  function AddBlob(picked: Option<Path>, contents: Option<Bytes>, h: HashFn): (r: Result<Blob, Error>)
    ensures picked.None? ==> r == Err(Cancelled)
    ensures picked.Some? ==> (r.Ok? <==> contents.Some?)
    ensures picked.Some? && contents.None? ==> r == Err(Io)
    ensures r.Ok? ==> r.value.path == picked.value && r.value.hash == h(contents.value)
    ensures r.Ok? ==> (r.value.ty == PinboardGraph <==> Extension(picked.value) == Some("pinbrd"))
  {
    match picked
    case None => Err(Cancelled)
    case Some(p) => NewBlob(Classify(p), p, contents, h)
  }

  /** An edge shows its relation's label, or the file name of the comment attached to it. */
  predicate LabelAgrees(d: EdgeData)
  {
    d.text == d.conn.relation.Label() ||
    (d.conn.comment.Some? && FileName(d.conn.comment.value.path) == Some(d.text))
  }

  ghost predicate EdgeLabelsAgree(g: PinboardGraph)
  {
    forall e :: e in g.edges ==> LabelAgrees(g.edges[e])
  }

  /**
   * The graph after `handle_update_blob_to_node`: the target node's payload becomes
   * the blob and its label the blob's file name; the target edge's comment becomes
   * the blob and its label the file name. An absent target leaves the graph as it is.
   */
  function Attached(g: PinboardGraph, target: Either, blob: Blob): (g': PinboardGraph)
    requires Named(blob)
    ensures g'.selectedNodes == g.selectedNodes && g'.selectedEdges == g.selectedEdges
    ensures g'.nodes.Keys == g.nodes.Keys && g'.edges.Keys == g.edges.Keys
    ensures target.Node? && target.node in g.nodes ==>
      g'.edges == g.edges &&
      g'.nodes[target.node] == NodeData(Some(blob), FileName(blob.path).value) &&
      forall id :: id in g.nodes && id != target.node ==> g'.nodes[id] == g.nodes[id]
    ensures target.Edge? && target.edge in g.edges ==>
      var d := g.edges[target.edge];
      var d' := g'.edges[target.edge];
      g'.nodes == g.nodes &&
      d'.conn.comment == Some(blob) && d'.text == FileName(blob.path).value &&
      d'.conn.relation == d.conn.relation && d'.a == d.a && d'.b == d.b &&
      forall id :: id in g.edges && id != target.edge ==> g'.edges[id] == g.edges[id]
    ensures (target.Node? && target.node !in g.nodes) || (target.Edge? && target.edge !in g.edges) ==>
      g' == g
    ensures g.Valid() ==> g'.Valid()
    ensures EdgeLabelsAgree(g) ==> EdgeLabelsAgree(g')
  {
    var filename := FileName(blob.path).value;
    match target
    case Edge(id) =>
      if id in g.edges then
        var d := g.edges[id];
        g.(edges := g.edges[id := d.(conn := d.conn.(comment := Some(blob)), text := filename)])
      else g
    case Node(id) =>
      if id in g.nodes then g.(nodes := g.nodes[id := NodeData(Some(blob), filename)]) else g
  }

  /** The edges of `edges` touching none of the nodes in `gone`. */
  ghost function Survivors(edges: map<EdgeId, EdgeData>, gone: set<NodeId>): map<EdgeId, EdgeData>
  {
    map e | e in edges && edges[e].a !in gone && edges[e].b !in gone :: edges[e]
  }

  ghost function Elems(s: seq<nat>): set<nat>
  {
    set x | x in s
  }

  /** `remove_node` for each node of `s`, in order. */
  function RemoveAllNodes(g: PinboardGraph, s: seq<NodeId>): (g': PinboardGraph)
    decreases |s|
  {
    if s == [] then g else RemoveAllNodes(g.RemoveNode(s[0]), s[1..])
  }

  /** `remove_edge` for each edge of `s`, in order. */
  function RemoveAllEdges(g: PinboardGraph, s: seq<EdgeId>): (g': PinboardGraph)
    decreases |s|
  {
    if s == [] then g else RemoveAllEdges(g.RemoveEdge(s[0]), s[1..])
  }

  lemma ElemsCons(s: seq<nat>)
    requires s != []
    ensures Elems(s) == {s[0]} + Elems(s[1..])
  {
    assert s == [s[0]] + s[1..];
  }

  /**
   * `g` is `g0` after removing the nodes in `gone`: those nodes and the edges
   * touching them are gone, the selection keeps what is still there, and the
   * graph stays well formed.
   */
  ghost predicate NodesRemoved(g0: PinboardGraph, gone: set<NodeId>, g: PinboardGraph)
  {
    g.Valid() &&
    g.nodes == g0.nodes - gone &&
    g.edges == Survivors(g0.edges, gone) &&
    g.selectedNodes == Keep(g0.selectedNodes, g.nodes.Keys) &&
    g.selectedEdges == Keep(g0.selectedEdges, g.edges.Keys)
  }

  lemma NodesRemovedStart(g0: PinboardGraph)
    requires g0.Valid()
    ensures NodesRemoved(g0, {}, g0)
  {
    KeepAll(g0.selectedNodes, g0.nodes.Keys);
    KeepAll(g0.selectedEdges, g0.edges.Keys);
    assert g0.edges == Survivors(g0.edges, {});
  }

  lemma SurvivorsGrow(e0: map<EdgeId, EdgeData>, gone: set<NodeId>, g: PinboardGraph, n: NodeId)
    requires g.edges == Survivors(e0, gone)
    ensures g.RemoveNode(n).edges == Survivors(e0, gone + {n})
  {
    var es, s := g.RemoveNode(n).edges, Survivors(e0, gone + {n});
    assert es.Keys == s.Keys;
    forall e | e in es
      ensures es[e] == s[e]
    {
    }
  }

  /** One more `remove_node`: the removed set grows by that node. */
  lemma NodesRemovedStep(g0: PinboardGraph, gone: set<NodeId>, g: PinboardGraph, n: NodeId)
    requires NodesRemoved(g0, gone, g)
    ensures NodesRemoved(g0, gone + {n}, g.RemoveNode(n))
  {
    var g' := g.RemoveNode(n);
    assert g'.edges == Survivors(g0.edges, gone + {n}) by {
      SurvivorsGrow(g0.edges, gone, g, n);
    }
    assert g'.nodes == g0.nodes - (gone + {n});
    assert g'.selectedNodes == Keep(g0.selectedNodes, g'.nodes.Keys) by {
      KeepKeep(g0.selectedNodes, g.nodes.Keys, g'.nodes.Keys);
    }
    assert g'.selectedEdges == Keep(g0.selectedEdges, g'.edges.Keys) by {
      KeepKeep(g0.selectedEdges, g.edges.Keys, g'.edges.Keys);
    }
  }

  /** Removing the nodes of `s` one by one removes all of them and exactly the edges touching them. */
  lemma {:induction false} RemoveAllNodesRemoves(g0: PinboardGraph, gone: set<NodeId>, g: PinboardGraph, s: seq<NodeId>)
    requires NodesRemoved(g0, gone, g)
    ensures NodesRemoved(g0, gone + Elems(s), RemoveAllNodes(g, s))
    decreases |s|
  {
    if s == [] {
      assert gone + Elems(s) == gone;
    } else {
      NodesRemovedStep(g0, gone, g, s[0]);
      RemoveAllNodesRemoves(g0, gone + {s[0]}, g.RemoveNode(s[0]), s[1..]);
      ElemsCons(s);
      assert gone + {s[0]} + Elems(s[1..]) == gone + Elems(s);
    }
  }

  lemma LabelsAfterRemoveNode(g: PinboardGraph, n: NodeId)
    requires EdgeLabelsAgree(g)
    ensures EdgeLabelsAgree(g.RemoveNode(n))
  {
  }

  /** Removing nodes keeps every surviving edge's label in agreement with its connection. */
  lemma {:induction false} LabelsAfterRemoveAllNodes(g: PinboardGraph, s: seq<NodeId>)
    requires EdgeLabelsAgree(g)
    ensures EdgeLabelsAgree(RemoveAllNodes(g, s))
    decreases |s|
  {
    if s != [] {
      LabelsAfterRemoveNode(g, s[0]);
      LabelsAfterRemoveAllNodes(g.RemoveNode(s[0]), s[1..]);
    }
  }

  /** `g` is `g0` after removing the edges in `gone`. */
  ghost predicate EdgesRemoved(g0: PinboardGraph, gone: set<EdgeId>, g: PinboardGraph)
  {
    g.Valid() &&
    g.nodes == g0.nodes &&
    g.edges == g0.edges - gone &&
    g.selectedNodes == g0.selectedNodes &&
    g.selectedEdges == Keep(g0.selectedEdges, g.edges.Keys)
  }

  lemma EdgesRemovedStart(g0: PinboardGraph)
    requires g0.Valid()
    ensures EdgesRemoved(g0, {}, g0)
  {
    KeepAll(g0.selectedEdges, g0.edges.Keys);
  }

  /** One more `remove_edge`. */
  lemma EdgesRemovedStep(g0: PinboardGraph, gone: set<EdgeId>, g: PinboardGraph, e: EdgeId)
    requires EdgesRemoved(g0, gone, g)
    ensures EdgesRemoved(g0, gone + {e}, g.RemoveEdge(e))
  {
    KeepKeep(g0.selectedEdges, g.edges.Keys, g.RemoveEdge(e).edges.Keys);
  }

  /** Removing the edges of `s` one by one removes exactly those edges. */
  lemma {:induction false} RemoveAllEdgesRemoves(g0: PinboardGraph, gone: set<EdgeId>, g: PinboardGraph, s: seq<EdgeId>)
    requires EdgesRemoved(g0, gone, g)
    ensures EdgesRemoved(g0, gone + Elems(s), RemoveAllEdges(g, s))
    decreases |s|
  {
    if s == [] {
      assert gone + Elems(s) == gone;
    } else {
      EdgesRemovedStep(g0, gone, g, s[0]);
      RemoveAllEdgesRemoves(g0, gone + {s[0]}, g.RemoveEdge(s[0]), s[1..]);
      ElemsCons(s);
      assert gone + {s[0]} + Elems(s[1..]) == gone + Elems(s);
    }
  }

  /** Removing edges keeps the remaining labels in agreement. */
  lemma {:induction false} LabelsAfterRemoveAllEdges(g: PinboardGraph, s: seq<EdgeId>)
    requires EdgeLabelsAgree(g)
    ensures EdgeLabelsAgree(RemoveAllEdges(g, s))
    decreases |s|
  {
    if s != [] {
      LabelsAfterRemoveAllEdges(g.RemoveEdge(s[0]), s[1..]);
    }
  }

  /** Removing every selected edge leaves none of them selected. */
  lemma AllSelectedEdgesRemoved(g0: PinboardGraph, g: PinboardGraph)
    requires EdgesRemoved(g0, Elems(g0.selectedEdges), g)
    ensures g.selectedEdges == []
  {
    KeepNone(g0.selectedEdges, g.edges.Keys);
  }

  class PinboardBuffer {
    /** The pinboard's identity; it is set when the pinboard is created or loaded, and never written again. */
    const uuid: Uuid
    var title: string
    var graph: PinboardGraph
    /** The file the pinboard was last saved to or loaded from. */
    var path: Option<Path>
    var unsaved: bool
    var saveFilePromise: Option<Promise<Result<Path, Error>>>
    var updateBlobPromise: Option<Promise<BlobDelivery>>
    var updateBlobAndOpenPromise: Option<Promise<BlobDelivery>>

    ghost predicate Valid()
      reads this
    {
      graph.Valid()
    }

    /** `PinboardBuffer::new`: a pinboard with no background work in flight. */
    constructor (uuid: Uuid, title: string, graph: PinboardGraph, path: Option<Path>, unsaved: bool)
      requires graph.Valid()
      ensures Valid()
      ensures this.uuid == uuid && this.title == title && this.graph == graph
      ensures this.path == path && this.unsaved == unsaved
      ensures saveFilePromise == None && updateBlobPromise == None && updateBlobAndOpenPromise == None
    {
      this.uuid := uuid;
      this.title := title;
      this.graph := graph;
      this.path := path;
      this.unsaved := unsaved;
      saveFilePromise := None;
      updateBlobPromise := None;
      updateBlobAndOpenPromise := None;
    }

    /** The window title: the pinboard's title, followed by a star exactly when there are unsaved changes. */
    function WindowTitle(): (t: string)
      reads this
      ensures |t| == |title| + 1 <==> unsaved
      ensures |t| == |title| <==> !unsaved
      ensures t[..|title|] == title
      ensures unsaved ==> t[|title|] == '*'
    {
      title + (if unsaved then "*" else "")
    }

    /**
     * The rename dialog: the text field holds the title as it is typed, and "Done"
     * closes the dialog and marks the new title as an unsaved change.
     */
    method Rename(newTitle: string)
      modifies this`title, this`unsaved
      ensures title == newTitle && unsaved
    {
      title := newTitle;
      unsaved := true;
    }

    /** `save`: start writing the pinboard, to its path or to one the user picks. */
    method Save()
      modifies this`saveFilePromise
      ensures saveFilePromise == Some(Pending)
    {
      saveFilePromise := Some(Pending);
    }

    /** Moving a node is an unsaved change. */
    method NodeMoved()
      modifies this`unsaved
      ensures unsaved
    {
      unsaved := true;
    }

    /** The blob held by a node, or attached to an edge, if the element exists. */
    function BlobAt(target: Either): (b: Option<Blob>)
      reads this
      ensures target.Node? && b.Some? ==> target.node in graph.nodes && graph.nodes[target.node].payload == b
      ensures target.Edge? && b.Some? ==> target.edge in graph.edges && graph.edges[target.edge].conn.comment == b
      ensures target.Node? ==> (b.Some? <==> target.node in graph.nodes && graph.nodes[target.node].payload.Some?)
      ensures target.Edge? ==> (b.Some? <==> target.edge in graph.edges && graph.edges[target.edge].conn.comment.Some?)
    {
      match target
      case Node(id) => if id in graph.nodes then graph.nodes[id].payload else None
      case Edge(id) => if id in graph.edges then graph.edges[id].conn.comment else None
    }

    /**
     * A double click on a node or edge: repair its blob in the background and open it.
     * The search root is derived from the pinboard's own path, which is unwrapped
     * before anything else, so a pinboard that was never saved panics (`panicked`).
     */
    method DoubleClicked(target: Either) returns (panicked: bool)
      modifies this`updateBlobAndOpenPromise
      ensures panicked <==> old(path).None?
      ensures !panicked && BlobAt(target).Some? ==> updateBlobAndOpenPromise == Some(Pending)
      ensures panicked || BlobAt(target).None? ==> updateBlobAndOpenPromise == old(updateBlobAndOpenPromise)
    {
      if path.None? {
        return true;
      }
      panicked := false;
      var blob := BlobAt(target);
      if blob.Some? {
        updateBlobAndOpenPromise := Some(Pending);
      }
    }

    /** "Add to the Edge": offered when exactly one edge is selected; picks a blob for it. */
    method AddToEdge() returns (offered: bool)
      modifies this`updateBlobPromise
      ensures offered <==> |graph.selectedEdges| == 1
      ensures offered ==> updateBlobPromise == Some(Pending)
      ensures !offered ==> updateBlobPromise == old(updateBlobPromise)
    {
      offered := |graph.selectedEdges| == 1;
      if offered {
        updateBlobPromise := Some(Pending);
      }
    }

    /**
     * "Add node": a node without a blob (`text` is the label the graph library
     * gives a new node), and a blob is picked for it in the background.
     */
    method AddNode(text: string) returns (id: NodeId)
      requires Valid()
      modifies this`graph, this`updateBlobPromise
      ensures Valid()
      ensures id !in old(graph).nodes
      ensures graph == old(graph).(nodes := old(graph).nodes[id := NodeData(None, text)])
      ensures updateBlobPromise == Some(Pending)
      ensures EdgeLabelsAgree(old(graph)) ==> EdgeLabelsAgree(graph)
    {
      id := AllocateId(graph.nodes.Keys);
      graph := graph.(nodes := graph.nodes[id := NodeData(None, text)]);
      updateBlobPromise := Some(Pending);
    }

    /** `handle_update_blob_to_node`: attach a delivered blob to its element; always an unsaved change. */
    method HandleUpdateBlobToNode(target: Either, blob: Blob)
      requires Named(blob)
      modifies this`graph, this`unsaved
      ensures graph == Attached(old(graph), target, blob)
      ensures unsaved
    {
      var filename := FileName(blob.path).value;
      match target {
        case Edge(id) =>
          if id in graph.edges {
            var d := graph.edges[id];
            graph := graph.(edges := graph.edges[id := d.(conn := d.conn.(comment := Some(blob)), text := filename)]);
          }
        case Node(id) =>
          if id in graph.nodes {
            graph := graph.(nodes := graph.nodes[id := NodeData(Some(blob), filename)]);
          }
      }
      unsaved := true;
    }

    /** Poll the save: a written file becomes the pinboard's path and clears the unsaved flag; a failure changes nothing. */
    method PollSave()
      modifies this`saveFilePromise, this`path, this`unsaved
      ensures !Fires(old(saveFilePromise)) ==>
        saveFilePromise == old(saveFilePromise) && path == old(path) && unsaved == old(unsaved)
      ensures Fires(old(saveFilePromise)) ==> saveFilePromise == None
      ensures Fires(old(saveFilePromise)) && old(saveFilePromise).value.value.Ok? ==>
        path == Some(old(saveFilePromise).value.value.value) && !unsaved
      ensures Fires(old(saveFilePromise)) && old(saveFilePromise).value.value.Err? ==>
        path == old(path) && unsaved == old(unsaved)
    {
      var slot, done := HandlePromise(saveFilePromise, (r: Result<Path, Error>) => r);
      saveFilePromise := slot;
      if done.Some? {
        match done.value {
          case Ok(p) =>
            path := Some(p);
            unsaved := false;
          case Err(_) =>
        }
      }
    }

    /** Poll the blob picked for a new node or for an edge: a delivered blob is attached, a failure is only reported. */
    method PollUpdateBlob()
      requires DeliversNamed(updateBlobPromise)
      modifies this`updateBlobPromise, this`graph, this`unsaved
      ensures !Fires(old(updateBlobPromise)) ==>
        updateBlobPromise == old(updateBlobPromise) && graph == old(graph) && unsaved == old(unsaved)
      ensures Fires(old(updateBlobPromise)) ==> updateBlobPromise == None
      ensures Fires(old(updateBlobPromise)) ==>
        var d := old(updateBlobPromise).value.value;
        if d.result.Ok? then graph == Attached(old(graph), d.target, d.result.value) && unsaved
        else graph == old(graph) && unsaved == old(unsaved)
    {
      var slot, done := HandlePromise(updateBlobPromise, (d: BlobDelivery) => d);
      updateBlobPromise := slot;
      if done.Some? && done.value.result.Ok? {
        HandleUpdateBlobToNode(done.value.target, done.value.result.value);
      }
    }

    /**
     * Poll the repair-and-open: a repaired blob is attached and handed back to be
     * opened (what `show` returns); a failure is only reported.
     */
    method PollUpdateBlobAndOpen() returns (toOpen: Option<Blob>)
      requires DeliversNamed(updateBlobAndOpenPromise)
      modifies this`updateBlobAndOpenPromise, this`graph, this`unsaved
      ensures !Fires(old(updateBlobAndOpenPromise)) ==>
        toOpen == None && updateBlobAndOpenPromise == old(updateBlobAndOpenPromise) &&
        graph == old(graph) && unsaved == old(unsaved)
      ensures Fires(old(updateBlobAndOpenPromise)) ==> updateBlobAndOpenPromise == None
      ensures Fires(old(updateBlobAndOpenPromise)) ==>
        var d := old(updateBlobAndOpenPromise).value.value;
        if d.result.Ok? then
          toOpen == Some(d.result.value) && graph == Attached(old(graph), d.target, d.result.value) && unsaved
        else
          toOpen == None && graph == old(graph) && unsaved == old(unsaved)
    {
      var slot, done := HandlePromise(updateBlobAndOpenPromise, (d: BlobDelivery) => d);
      updateBlobAndOpenPromise := slot;
      toOpen := None;
      if done.Some? && done.value.result.Ok? {
        HandleUpdateBlobToNode(done.value.target, done.value.result.value);
        toOpen := Some(done.value.result.value);
      }
    }

    /** "Delete selected node(s)": offered when a node is selected; removes every selected node and the edges touching them. */
    method DeleteSelectedNodes() returns (offered: bool)
      requires Valid()
      modifies this`graph, this`unsaved
      ensures Valid()
      ensures offered <==> |old(graph).selectedNodes| > 0
      ensures offered ==>
        unsaved &&
        graph.nodes == old(graph).nodes - Elems(old(graph).selectedNodes) &&
        graph.edges == Survivors(old(graph).edges, Elems(old(graph).selectedNodes)) &&
        graph.selectedNodes == Keep(old(graph).selectedNodes, graph.nodes.Keys) &&
        graph.selectedEdges == Keep(old(graph).selectedEdges, graph.edges.Keys)
      ensures !offered ==> graph == old(graph) && unsaved == old(unsaved)
      ensures EdgeLabelsAgree(old(graph)) ==> EdgeLabelsAgree(graph)
    {
      offered := |graph.selectedNodes| > 0;
      if !offered {
        return;
      }
      var selected := graph.selectedNodes;
      var i := 0;
      while i < |selected|
        invariant 0 <= i <= |selected|
        invariant RemoveAllNodes(graph, selected[i..]) == RemoveAllNodes(old(graph), selected)
      {
        assert selected[i..][1..] == selected[i + 1..];
        graph := graph.RemoveNode(selected[i]);
        i := i + 1;
      }
      NodesRemovedStart(old(graph));
      RemoveAllNodesRemoves(old(graph), {}, old(graph), selected);
      assert {} + Elems(selected) == Elems(selected);
      if EdgeLabelsAgree(old(graph)) {
        LabelsAfterRemoveAllNodes(old(graph), selected);
      }
      unsaved := true;
    }

    /** "Delete selected edge(s)": offered when an edge is selected; removes every selected edge. */
    method DeleteSelectedEdges() returns (offered: bool)
      requires Valid()
      modifies this`graph, this`unsaved
      ensures Valid()
      ensures offered <==> |old(graph).selectedEdges| > 0
      ensures offered ==>
        unsaved &&
        graph.nodes == old(graph).nodes &&
        graph.edges == old(graph).edges - Elems(old(graph).selectedEdges) &&
        graph.selectedNodes == old(graph).selectedNodes &&
        graph.selectedEdges == []
      ensures !offered ==> graph == old(graph) && unsaved == old(unsaved)
      ensures EdgeLabelsAgree(old(graph)) ==> EdgeLabelsAgree(graph)
    {
      offered := |graph.selectedEdges| > 0;
      if !offered {
        return;
      }
      var selected := graph.selectedEdges;
      var i := 0;
      while i < |selected|
        invariant 0 <= i <= |selected|
        invariant RemoveAllEdges(graph, selected[i..]) == RemoveAllEdges(old(graph), selected)
      {
        assert selected[i..][1..] == selected[i + 1..];
        graph := graph.RemoveEdge(selected[i]);
        i := i + 1;
      }
      EdgesRemovedStart(old(graph));
      RemoveAllEdgesRemoves(old(graph), {}, old(graph), selected);
      assert {} + Elems(selected) == Elems(selected);
      AllSelectedEdgesRemoved(old(graph), graph);
      if EdgeLabelsAgree(old(graph)) {
        LabelsAfterRemoveAllEdges(old(graph), selected);
      }
      unsaved := true;
    }

    /**
     * "Connect with" a relation: offered when exactly two nodes are selected and no
     * edge joins them yet; the new edge carries no comment and the relation's label.
     */
    method ConnectWith(relation: Relation) returns (added: Option<EdgeId>)
      requires Valid()
      modifies this`graph, this`unsaved
      ensures Valid()
      ensures added.Some? <==>
        |old(graph).selectedNodes| == 2 &&
        !old(graph).Joined(old(graph).selectedNodes[0], old(graph).selectedNodes[1])
      ensures added.Some? ==>
        var a, b := old(graph).selectedNodes[0], old(graph).selectedNodes[1];
        added.value !in old(graph).edges &&
        graph == old(graph).(edges := old(graph).edges[added.value := EdgeData(a, b, Conn(None, relation), relation.Label())]) &&
        graph.Joined(a, b) && unsaved
      ensures added.None? ==> graph == old(graph) && unsaved == old(unsaved)
      ensures EdgeLabelsAgree(old(graph)) ==> EdgeLabelsAgree(graph)
    {
      if |graph.selectedNodes| != 2 {
        return None;
      }
      var a, b := graph.selectedNodes[0], graph.selectedNodes[1];
      if graph.Joined(a, b) {
        return None;
      }
      var id := AllocateId(graph.edges.Keys);
      var caption := relation.Label();
      graph := graph.(edges := graph.edges[id := EdgeData(a, b, Conn(None, relation), caption)]);
      assert Joins(graph.edges[id], a, b);
      unsaved := true;
      added := Some(id);
    }

    /**
     * "Change Relation": offered when exactly one edge is selected; the relation and
     * the label change together, the comment and the endpoints stay.
     */
    method ChangeRelation(relation: Relation) returns (changed: bool)
      requires Valid()
      modifies this`graph, this`unsaved
      ensures Valid()
      ensures changed <==> |old(graph).selectedEdges| == 1
      ensures changed ==>
        var id := old(graph).selectedEdges[0];
        var d := old(graph).edges[id];
        graph == old(graph).(edges := old(graph).edges[id := EdgeData(d.a, d.b, Conn(d.conn.comment, relation), relation.Label())]) &&
        unsaved
      ensures !changed ==> graph == old(graph) && unsaved == old(unsaved)
      ensures EdgeLabelsAgree(old(graph)) ==> EdgeLabelsAgree(graph)
    {
      if |graph.selectedEdges| != 1 {
        return false;
      }
      var id := graph.selectedEdges[0];
      var d := graph.edges[id];
      graph := graph.(edges := graph.edges[id := d.(text := relation.Label(), conn := d.conn.(relation := relation))]);
      unsaved := true;
      changed := true;
    }
  }
}
