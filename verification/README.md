# pinbrd in Dafny

Pinlab (`pinbrd`) is a desktop pinboard. A pinboard is a graph. Each node may hold a
*blob*, a reference to an external document: a file, or another pinboard file.
Each undirected edge carries a *relation* (Conflict, Progress, Insight, Related)
and may also carry a comment blob. A blob records its type, its path and the
blake3 hash of its content. When a document has moved, the blob is *repaired*
by searching a directory tree for the unique visible file with that hash. The
application keeps every open pinboard under its uuid. It reads pinboard files in
the background, and it sends documents to a Neovim server or to the desktop's
default opener.

This project models the sequential logic of that program:

- `wrappers.dfy`: `Option` and `Result`.
- `paths.dfy` (module `Paths`): the parts of Rust's `Path` the program uses, which
  are `file_name` and `extension`.
- `graph.dfy` (module `Graph`): blobs, relations and their tags and colours, and
  blob repair. `Blob::walk` is a recursive method with a loop over a directory
  listing. Ghost functions over a file-system tree specify it, and an independent
  reachability predicate cross-checks those functions.
- `board_graph.dfy` (module `BoardGraph`): the pinboard graph as the application
  sees it through its graph widget. Nodes and edges are maps, and the two
  selections are sequences.
- `promise.dfy` (module `Promises`): the promise slot and `handle_promise`.
- `pinboard.dfy` (module `Pinboard`): `PinboardBuffer`, a class whose methods are
  the buffer's edits and promise handlers.
- `app.dfy` (module `App`): `PinlabApp`, a class holding the registry of open
  pinboards, the list of pinboards being read, and the routing of opened blobs.
  It also holds the end-of-frame reconciliation of that list, both as written and
  corrected (see Findings).

Some things outside the program become parameters:

- The content hash is a function parameter `h`.
- Everything the file system answers is data: the `FsNode` tree, the `Probe` of a
  blob's own path, and the bytes read.
- A fresh uuid, and the index the graph library hands a new node or edge, are
  parameters or are chosen by `AllocateId`.

A panic in the source is one of two things in the model:

- A `panicked` result, when the panic follows from the state (a double click on
  a pinboard that was never saved, or reconciliation as written).
- A `requires` clause, when avoiding the panic is the caller's duty (a delivered
  blob path must have a file name).

## Model

| member | source | states |
|---|---|---|
| Graph.NewBlob | src/graph.rs:33-37 | The blob keeps the given type and path and records the hash of the content read. A failed read is an I/O error. |
| Graph.Walk | src/graph.rs:47-79 | A root that is not a directory gives `Ok(None)`. Otherwise the result is an error exactly when a listing, an entry or a visible file in the searched subtree fails, or when two or more visible files in the whole subtree match. It is `Ok(None)` exactly when nothing fails and no file matches. `Ok(Some(p))` means `p` is the only match and is reachable through visible entries. When nothing failed, the error is "multiple matches". |
| Graph.MatchesIff | src/graph.rs:52-70 | The search's notion of match (`Matches`) agrees in both directions with an independent definition: a visible, readable file with the target hash, reached through visible directories only. Hidden entries, and entries whose hidden check fails, never match. |
| Graph.MatchesInIff | src/graph.rs:52-70 | The same agreement for the first `k` entries of one listing. |
| Graph.PrefixGrows | src/graph.rs:52-70 | Inspecting more of a listing never loses a match or a fault. So an early error return is the error the complete loop would report. |
| Graph.CopiesInTwoDirectoriesConflict | src/graph.rs:241-244 | Two visible copies of the target in different subdirectories give two matches and no fault, so the search reports an error. |
| Graph.HiddenCopyIgnored | src/graph.rs:247-253 | A copy inside a hidden directory is not a match. With no other copy, nothing matches and nothing fails, so the search returns `Ok(None)`. |
| Graph.SingleCopyFound | src/graph.rs:256-262 | One visible copy is the unique match, so the search returns its path. |
| Graph.Update | src/graph.rs:89-107 | The type never changes. If the path exists, the hash becomes the hash of the current content, and refreshing unchanged content changes nothing. An unreadable path is an error. If the path is gone, the hash is kept. The path then moves only to the unique match. Two or more matches, or a fault, is an error with the blob unchanged, and zero matches is `Ok` with the blob unchanged. If the existence check fails, the result is `Ok` and nothing changes. |
| Graph.BlobType.Color | src/graph.rs:114-121 | There is a colour exactly for pinboard blobs, and it is light blue. |
| Graph.Relation.Color | src/graph.rs:137-145 | There is no colour exactly for `Related`. |
| Graph.Relation.Label | src/graph.rs:147-155 | Every relation has a non-empty label. |
| Graph.LabelInjective | src/graph.rs:147-155 | The four labels are distinct, so a label determines its relation. |
| Graph.RelationColorInjective | src/graph.rs:137-145 | Different relations never share a colour. |
| Paths.FileName | src/pinboard.rs:502-505 | `file_name` is the last component, absent for the empty path and for `..`. |
| Paths.NameExtension | src/pinboard.rs:215 | The extension is present exactly when the name has a dot other than at its first character, and the name is not `..`. It is the dot-free text after the last dot. |
| Paths.Extension | src/main.rs:134-136 | A path's extension is the extension of its file name, and there is none without a file name. |
| BoardGraph.Keep | src/pinboard.rs:337-338 | The selection left after removals holds exactly the selected ids still in the graph. |
| BoardGraph.KeepKeep | src/pinboard.rs:337-338 | Pruning a selection twice is the same as pruning it once to the smaller set. |
| BoardGraph.PinboardGraph.RemoveNode | src/pinboard.rs:338 | `remove_node` drops the node and exactly the edges touching it, leaves the other edges alone, prunes both selections, and keeps the graph well formed. |
| BoardGraph.PinboardGraph.RemoveEdge | src/pinboard.rs:435 | `remove_edge` drops exactly that edge, prunes the edge selection, and keeps the graph well formed. |
| BoardGraph.AllocateId | src/pinboard.rs:227 | A new index is not already in use. |
| Promises.HandlePromise | src/main.rs:99-118 | The handler runs exactly when the slot holds a ready promise, and then its result is returned. The slot is cleared exactly then. Otherwise nothing is returned and the slot is unchanged (empty stays empty, pending stays pending). Afterwards the slot never fires again at once. |
| Pinboard.Classify | src/pinboard.rs:215-218 | A picked file is a pinboard blob exactly when its extension is `pinbrd`. |
| Pinboard.AddBlob | src/pinboard.rs:208-219 | A dismissed dialog is cancellation. An unreadable file is an I/O error. Otherwise the blob has the picked path, the hash of the content read, and the type classified by the extension. |
| Pinboard.Attached | src/pinboard.rs:496-524 | For a present node, its payload becomes the blob and its label the blob's file name. All other nodes and all edges are unchanged. For a present edge, its comment becomes the blob and its label the file name, and its relation and endpoints are kept. An absent target leaves the graph unchanged. Selections and well-formedness are kept, and edge labels still agree. |
| Pinboard.RemoveAllNodesRemoves | src/pinboard.rs:337-339 | Removing the listed nodes one by one removes exactly those nodes and exactly the edges touching them, and prunes both selections. |
| Pinboard.LabelsAfterRemoveAllNodes | src/pinboard.rs:337-339 | Removing nodes keeps every surviving edge's label in agreement. |
| Pinboard.RemoveAllEdgesRemoves | src/pinboard.rs:434-436 | Removing the listed edges one by one removes exactly those edges and keeps the nodes. |
| Pinboard.LabelsAfterRemoveAllEdges | src/pinboard.rs:434-436 | Removing edges keeps the remaining labels in agreement. |
| Pinboard.AllSelectedEdgesRemoved | src/pinboard.rs:432-439 | After every selected edge is removed, no edge is selected. |
| Pinboard.PinboardBuffer.constructor | src/pinboard.rs:94-101 | A new buffer holds the given pinboard, path and unsaved flag, with no background work in flight. |
| Pinboard.PinboardBuffer.WindowTitle | src/pinboard.rs:242-246 | The window title is the pinboard title, followed by `*` exactly when there are unsaved changes. |
| Pinboard.PinboardBuffer.Save | src/pinboard.rs:124-134 | Saving starts a pending save. |
| Pinboard.PinboardBuffer.Rename | src/pinboard.rs:136-151 | The rename dialog's end state: the title is the text typed into the field, and "Done" marks the pinboard unsaved. |
| Pinboard.PinboardBuffer.BlobAt | src/pinboard.rs:162-167 | The blob of an existing node, or the comment of an existing edge. A blob is found exactly when the node exists and holds a blob, or the edge exists and carries a comment. |
| Pinboard.PinboardBuffer.DoubleClicked | src/pinboard.rs:156-200 | A double click on a pinboard without a path panics. Otherwise a repair-and-open starts exactly when the element holds a blob, and nothing changes when it does not. |
| Pinboard.PinboardBuffer.NodeMoved | src/pinboard.rs:202 | Moving a node is an unsaved change. |
| Pinboard.PinboardBuffer.AddNode | src/pinboard.rs:221-232 | The new node has an unused index, no blob and the library's default label. Nothing else in the graph changes, and a blob pick starts. |
| Pinboard.PinboardBuffer.HandleUpdateBlobToNode | src/pinboard.rs:496-524 | The graph becomes `Attached(old graph, target, blob)`, and the pinboard is unsaved even when the target is absent. |
| Pinboard.PinboardBuffer.PollSave | src/pinboard.rs:449-457 | A finished save to `p` sets the path to `p` and clears the unsaved flag, and empties the slot. A failed save leaves path and flag unchanged. A pending or empty slot changes nothing. |
| Pinboard.PinboardBuffer.PollUpdateBlob | src/pinboard.rs:459-471 | A delivered blob is attached to its target. A failure changes nothing but emptying the slot. A pending or empty slot changes nothing. |
| Pinboard.PinboardBuffer.PollUpdateBlobAndOpen | src/pinboard.rs:473-491 | Like `PollUpdateBlob`, and the repaired blob is returned to be opened. Nothing is returned on failure or while pending. |
| Pinboard.PinboardBuffer.DeleteSelectedNodes | src/pinboard.rs:334-343 | The action is offered exactly when a node is selected. It removes every selected node and exactly the edges touching them, prunes the selections and marks unsaved. Well-formedness and edge labels are kept. |
| Pinboard.PinboardBuffer.ConnectWith | src/pinboard.rs:346-389 | The action is offered exactly when two nodes are selected and no edge joins them. It adds one edge between them with a fresh index, no comment, the chosen relation and that relation's label, and marks unsaved. Nothing else changes. |
| Pinboard.PinboardBuffer.AddToEdge | src/pinboard.rs:391-398 | The action is offered exactly when one edge is selected, and it starts a blob pick. |
| Pinboard.PinboardBuffer.ChangeRelation | src/pinboard.rs:400-429 | The action is offered exactly when one edge is selected. The relation and label change together, while comment and endpoints stay. Labels keep agreeing. |
| Pinboard.PinboardBuffer.DeleteSelectedEdges | src/pinboard.rs:432-439 | The action is offered exactly when an edge is selected. It removes exactly the selected edges, keeps the nodes and the node selection, leaves no edge selected and marks unsaved. |
| App.Route | src/main.rs:129-162 | A pinboard blob is queued to be opened. A file goes to Neovim exactly when a server is set and its extension is one of the configured ones, and otherwise to the default opener. The path is passed on unchanged. |
| App.MarkdownGoesToNvim | src/main.rs:38-40 | With the default extensions and a server set, a `.md` file goes to Neovim. |
| App.PinlabApp.constructor | src/main.rs:32-42 | The app starts with no pinboards, nothing loading, the given server, and the given extensions or `md`/`markdown` by default. |
| App.PinlabApp.NewPinboard | src/main.rs:44-55 | "New" files a fresh, empty, untitled, unsaved buffer under its own uuid with its window open. Every key still names its buffer's uuid. |
| App.PinlabApp.RequestOpen | src/main.rs:88-91 | "Open..." appends a pending read. |
| App.PinlabApp.OpenBlob | src/main.rs:129-162 | The action taken is `Route`'s choice. Only a pinboard blob appends a pending read. |
| App.Register | src/main.rs:191-195 | A loaded pinboard whose uuid is already present keeps the existing buffer and opens its window. Otherwise it is added, open. No other entry changes, and keys keep naming their buffers' uuids. |
| App.RegisterAll | src/main.rs:183-196 | After registering buffers in order, each one's uuid is present and open. Existing buffers are kept, open windows stay open, and keys keep naming their buffers' uuids. |
| App.RegisterAllExact | src/main.rs:183-196 | The registry afterwards holds exactly the uuids already there and those of the buffers. An entry that no buffer names is untouched. A new entry holds the first buffer carrying its uuid, open. |
| App.PinlabApp.RegisterLoaded | src/main.rs:191-195 | The registry becomes `Register(old registry, buf)`. |
| App.ClearFailed | src/main.rs:169-179 | The first pass replaces failed reads by None and keeps every other entry. |
| App.ReadyIndices | src/main.rs:168-180 | The noted indices are exactly the positions of the reads that finished successfully. |
| App.ReadyIndicesAscending | src/main.rs:168-180 | The noted indices are strictly ascending. |
| App.PendingOnlyClearFailed | src/main.rs:170-177 | Clearing failed reads leaves the reads still in progress as they were. |
| App.RetainedIsPending | src/main.rs:197 | When nothing has finished, dropping the None entries keeps exactly the reads in progress, in order. |
| App.RemoveAsWritten | src/main.rs:183-190 | Each successful removal shortens the list by one. |
| App.Reconciled | src/main.rs:166-197 | Reconciliation as written panics exactly when two or more reads finish in one frame. Otherwise it keeps exactly the reads in progress, in order, and registers the loaded pinboard, which is the outcome of `ReconcileBoardsFixed`. |
| App.PinlabApp.ReconcileBoards | src/main.rs:166-197 | The loops as written panic exactly when `Reconciled` says so, and otherwise leave the list and registry that `Reconciled` gives. By the contract of `Reconciled`, this means a panic exactly when two or more reads finish in one frame. |
| App.SingleReadyAsIntended | src/main.rs:166-197 | With at most one read finishing in a frame, the removal pass as written does not panic. It keeps exactly the reads in progress in their order, drops the failed ones, and registers the loaded pinboard. |
| App.TwoReadyPanics | src/main.rs:183-190 | Two reads that finish in the same frame make the frame panic. |
| App.RemovalRunsOut | src/main.rs:183-190 | Once fewer finished reads remain at or after the next index than there are removals left, the removal pass panics. Each good removal uses up one finished read and shifts the next one out of reach. |
| App.ManyReadyPanics | src/main.rs:166-197 | Whenever two or more reads finish in the same frame, the removal pass as written panics, whatever else the list holds. |
| App.PinlabApp.ReconcileBoardsFixed | src/main.rs:166-197 | For any number of finished reads, the frame keeps exactly the reads in progress in their order. Every loaded pinboard is registered in list order, and keys keep naming their buffers' uuids. |

## Left out

- I/O is not modelled:
  - reading, writing, listing and hidden checks on files (their outcomes are data);
  - file dialogs;
  - the search root from `giro::git_root`, which is a parameter;
  - `canonicalize`;
  - launching `nvim` or the default opener (only the routing decision is modelled);
  - printing errors.
- blake3 is an arbitrary function parameter, so hash collisions are not reasoned about.
- Serialising a pinboard to JSON and reading it back is not modelled: `save_to_path`, `save_as`, `open_pinboard` and `open_pinboard_from_path`.
  - A read appears as a promise that becomes ready with a buffer or an error.
  - A save appears as a promise that becomes ready with a path or an error.
- Concurrency is not modelled. Promises are `Pending | Ready(v)`, advanced by the environment between frames, and spawning work is modelled as storing `Some(Pending)`.
- Rendering with egui is not modelled: windows, menus, modals, shortcuts, `Metadata`, node positions, and the node and edge shapes with their RGB values. Colours are named palette entries.
- The per-frame drivers `show`, `show_menu_bar` and `update` are not modelled as such. Each user action is its own method, and the three polls are the promise handling of `show`. The order in which they run within one frame is not modelled.
- The event channel is not modelled. Double clicks and node moves are modelled one event at a time.
- Randomness is not modelled. `Uuid::new_v4` becomes a parameter of `NewPinboard`.
- The graph library's internals are not modelled. Index allocation is any unused index (`AllocateId`), and `remove_node` is assumed to drop incident edges and deselect removed elements.
- `to_str` on a non-UTF-8 name is not modelled: paths are sequences of strings.
- The blob previewer (`src/previewer.rs`) is not part of this model. It is not compiled in this revision.
- Promises.HandlePromise: returns the new slot instead of writing it in place; callers assign it back.
- Graph.Update: returns the updated blob instead of mutating it in place.
- Graph.Walk: when a subtree both faults and has two or more matches, the error kind depends on listing order. The contract then only says that the result is an error.
- Pinboard.EdgeLabelsAgree: the invariant is weaker than "an edge's label is its relation's label". Attaching a comment blob to an edge sets the edge's label to the blob's file name (src/pinboard.rs:513). So the invariant allows either the relation's label or the comment's file name.
- Pinboard.PinboardBuffer.Rename: typing the new title, which writes the title on every keystroke (src/pinboard.rs:142), and confirming with "Done" (src/pinboard.rs:144-147) are merged into one step. The intermediate titles shown while typing are not modelled.
- Pinboard.PinboardBuffer.DeleteSelectedNodes: how the library's selection list reacts to a removal is taken to be the pruning `Keep`.

## Findings

| source | as written | input that shows it | evidently intended | confidence | as-written member | corrected member |
|---|---|---|---|---|---|---|
| src/main.rs:183-189 | The indices of finished reads are collected in ascending order, then each is removed with `Vec::remove` from the list that already shrank. So from the second removal on, each index points one or more places past the entry it noted. Some removal, at the latest the last, lands past the end or on an entry that is still loading or None, and the `unwrap`/`try_take` there panics. This happens whenever two or more reads finish in the same frame (`App.ManyReadyPanics`, `App.Reconciled`). | `boards_to_open == [Some(ready Ok(a)), Some(ready Ok(b))]`: `remove(0)`, then `remove(1)` on a one-element list panics. | Every finished read is removed and its pinboard registered, whatever their number, and the reads still in progress stay in order. | high (not executed) | App.TwoReadyPanics | App.PinlabApp.ReconcileBoardsFixed |
