/**
 * The application (src/main.rs): the open pinboards keyed by uuid, each with
 * whether its window is open; the pinboard files being read in the background;
 * and where a blob that a pinboard asks to open goes (a Neovim server, the
 * desktop's default opener, or another pinboard).
 */
module App {
  import opened Wrappers
  import opened Paths
  import opened Graph
  import opened BoardGraph
  import opened Promises
  import opened Pinboard

  /** An entry of `boards_to_open`: a pinboard being read, or None once it failed. */
  type Board = Option<Promise<Result<PinboardBuffer, Error>>>

  /** The open pinboards by uuid, each with whether its window is open. */
  type Registry = map<Uuid, (PinboardBuffer, bool)>

  /** The extensions sent to Neovim when none are given on the command line. */
  const DefaultNvimExt: seq<string> := ["md", "markdown"]

  /** What opening a blob does. */
  datatype Launch =
    | NvimRemote(server: string, path: Path)
    | DefaultOpener(path: Path)
    | QueueBoardOpen(path: Path)

  /**
   * Where a blob goes: a pinboard is queued to be read and opened; a file goes to
   * the Neovim server when one is configured and the file's extension is one of
   * the configured extensions, and to the default opener otherwise.
   */
  function Route(b: Blob, nvimSrv: Option<string>, nvimExt: seq<string>): (a: Launch)
    ensures a.path == b.path
    ensures a.QueueBoardOpen? <==> b.ty == PinboardGraph
    ensures a.NvimRemote? <==>
      b.ty == File && nvimSrv.Some? && Extension(b.path).Some? && Extension(b.path).value in nvimExt
    ensures a.NvimRemote? ==> a.server == nvimSrv.value
  {
    match b.ty
    case PinboardGraph => QueueBoardOpen(b.path)
    case File =>
      if nvimSrv.Some? && Extension(b.path).Some? && Extension(b.path).value in nvimExt then
        NvimRemote(nvimSrv.value, b.path)
      else
        DefaultOpener(b.path)
  }

  /** With the default extensions, a Markdown file goes to the configured Neovim server. */
  lemma MarkdownGoesToNvim(b: Blob, stem: string, srv: string)
    requires b.ty == File && stem != [] && FileName(b.path) == Some(stem + ".md")
    ensures Route(b, Some(srv), DefaultNvimExt) == NvimRemote(srv, b.path)
  {
    var name := stem + ".md";
    assert name[|stem|] == '.';
    assert name != ".." by {
      assert |name| >= 4;
    }
    assert 0 < |stem| < |name|;
    var r := NameExtension(name);
    assert r.Some?;
    assert r.value == name[|stem| + 1..] == "md";
  }

  /** The uuid each buffer is filed under is its own. */
  ghost predicate KeyedByUuid(m: Registry)
  {
    forall k :: k in m ==> m[k].0.uuid == k
  }

  /**
   * A pinboard that finished loading: one already open under the same uuid keeps
   * its buffer and has its window opened; otherwise the loaded buffer is added, open.
   */
  function Register(m: Registry, buf: PinboardBuffer): (m': Registry)
    ensures m'.Keys == m.Keys + {buf.uuid}
    ensures m'[buf.uuid].1
    ensures buf.uuid in m ==> m'[buf.uuid].0 == m[buf.uuid].0
    ensures buf.uuid !in m ==> m'[buf.uuid].0 == buf
    ensures forall k :: k in m && k != buf.uuid ==> m'[k] == m[k]
    ensures KeyedByUuid(m) ==> KeyedByUuid(m')
  {
    if buf.uuid in m then m[buf.uuid := (m[buf.uuid].0, true)] else m[buf.uuid := (buf, true)]
  }

  /** Some buffer of `bufs` carries uuid `u`. */
  predicate Carries(bufs: seq<PinboardBuffer>, u: Uuid)
  {
    exists k :: 0 <= k < |bufs| && bufs[k].uuid == u
  }

  /** `bufs[k]` is the first buffer of `bufs` that carries uuid `u`. */
  predicate FirstCarrier(bufs: seq<PinboardBuffer>, k: int, u: Uuid)
  {
    0 <= k < |bufs| && bufs[k].uuid == u && forall j :: 0 <= j < k ==> bufs[j].uuid != u
  }

  /**
   * Registering the loaded buffers in order: every buffer's uuid ends up open, the
   * buffers already there are kept and open windows stay open.
   * `RegisterAllExact` states what else the registry holds.
   */
  function RegisterAll(m: Registry, bufs: seq<PinboardBuffer>): (m': Registry)
    ensures m.Keys <= m'.Keys
    ensures forall k :: 0 <= k < |bufs| ==> bufs[k].uuid in m' && m'[bufs[k].uuid].1
    ensures forall u :: u in m ==> m'[u].0 == m[u].0
    ensures forall u :: u in m && m[u].1 ==> m'[u].1
    ensures KeyedByUuid(m) ==> KeyedByUuid(m')
    decreases |bufs|
  {
    if bufs == [] then m
    else
      var init := bufs[..|bufs| - 1];
      assert forall k :: 0 <= k < |init| ==> init[k] == bufs[k];
      Register(RegisterAll(m, init), bufs[|bufs| - 1])
  }

  /**
   * Nothing else is added: the registry afterwards holds the uuids already there
   * and those of the buffers, an entry that no buffer names is untouched, and a
   * new entry holds the first buffer that carries its uuid, open.
   */
  lemma {:induction false} RegisterAllExact(m: Registry, bufs: seq<PinboardBuffer>)
    ensures forall u :: u in RegisterAll(m, bufs) <==> u in m || Carries(bufs, u)
    ensures forall u :: u in m && !Carries(bufs, u) ==> RegisterAll(m, bufs)[u] == m[u]
    ensures forall u :: u in RegisterAll(m, bufs) && u !in m ==>
      exists k :: FirstCarrier(bufs, k, u) && RegisterAll(m, bufs)[u] == (bufs[k], true)
    decreases |bufs|
  {
    if bufs != [] {
      var init := bufs[..|bufs| - 1];
      var last := bufs[|bufs| - 1];
      assert init + [last] == bufs;
      RegisterAllExact(m, init);
      RegisterAllSnoc(m, init, last);
      RegisterStep(m, init, last, RegisterAll(m, init));
    }
  }

  /**
   * `m'` holds exactly what registering `bufs` into `m` should add: the uuids of
   * `m` and of the buffers, an entry no buffer names untouched, and a new entry
   * holding the first buffer that carries its uuid, open.
   */
  ghost predicate RegisteredExactly(m: Registry, bufs: seq<PinboardBuffer>, m': Registry)
  {
    (forall u :: u in m' <==> u in m || Carries(bufs, u)) &&
    (forall u :: u in m && !Carries(bufs, u) ==> m'[u] == m[u]) &&
    (forall u :: u in m' && u !in m ==> exists k :: FirstCarrier(bufs, k, u) && m'[u] == (bufs[k], true))
  }

  /** Registering one more buffer keeps the registry exactly as registration should leave it. */
  lemma RegisterStep(m: Registry, init: seq<PinboardBuffer>, last: PinboardBuffer, m0: Registry)
    requires RegisteredExactly(m, init, m0)
    ensures RegisteredExactly(m, init + [last], Register(m0, last))
  {
    var bufs := init + [last];
    var r := Register(m0, last);
    forall u ensures Carries(bufs, u) <==> Carries(init, u) || u == last.uuid {
      if Carries(bufs, u) && u != last.uuid {
        var k :| 0 <= k < |bufs| && bufs[k].uuid == u;
        assert k < |init| && init[k].uuid == u;
      }
      if Carries(init, u) {
        var k :| 0 <= k < |init| && init[k].uuid == u;
        assert bufs[k].uuid == u;
      }
      if u == last.uuid {
        assert bufs[|init|].uuid == u;
      }
    }
    forall u | u in r && u !in m
      ensures exists k :: FirstCarrier(bufs, k, u) && r[u] == (bufs[k], true)
    {
      if u in m0 {
        var k :| FirstCarrier(init, k, u) && m0[u] == (init[k], true);
        assert FirstCarrier(bufs, k, u) && r[u] == (bufs[k], true);
      } else {
        assert !Carries(init, u);
        assert FirstCarrier(bufs, |init|, u);
      }
    }
  }

  predicate ReadyOk(x: Board)
  {
    x.Some? && x.value.Ready? && x.value.value.Ok?
  }

  predicate ReadyErr(x: Board)
  {
    x.Some? && x.value.Ready? && x.value.value.Err?
  }

  predicate IsPending(x: Board)
  {
    x.Some? && x.value.Pending?
  }

  function Buffer(x: Board): PinboardBuffer
    requires ReadyOk(x)
  {
    x.value.value.value
  }

  /** A failed read is reported and its entry set to None. */
  function Cleared(x: Board): Board
  {
    if ReadyErr(x) then None else x
  }

  function ClearFailed(bs: seq<Board>): (r: seq<Board>)
    ensures |r| == |bs| && forall i :: 0 <= i < |bs| ==> r[i] == Cleared(bs[i])
  {
    seq(|bs|, i requires 0 <= i < |bs| => Cleared(bs[i]))
  }

  /** The positions of the entries that loaded successfully, in ascending order. */
  function ReadyIndices(bs: seq<Board>): (r: seq<nat>)
    ensures forall k :: 0 <= k < |r| ==> r[k] < |bs| && ReadyOk(bs[r[k]])
    ensures forall i :: 0 <= i < |bs| && ReadyOk(bs[i]) ==> i in r
    decreases |bs|
  {
    if bs == [] then []
    else
      var init := bs[..|bs| - 1];
      assert forall i :: 0 <= i < |init| ==> init[i] == bs[i];
      ReadyIndices(init) + (if ReadyOk(bs[|bs| - 1]) then [|bs| - 1] else [])
  }

  /** The loaded positions are noted in ascending order. */
  lemma {:induction false} ReadyIndicesAscending(bs: seq<Board>)
    ensures Ascending(ReadyIndices(bs))
    decreases |bs|
  {
    if bs != [] {
      ReadyIndicesAscending(bs[..|bs| - 1]);
    }
  }

  /** The buffers that loaded successfully, in list order. */
  function ReadyBuffers(bs: seq<Board>): (r: seq<PinboardBuffer>)
    decreases |bs|
  {
    if bs == [] then []
    else
      var x := bs[|bs| - 1];
      ReadyBuffers(bs[..|bs| - 1]) + (if ReadyOk(x) then [Buffer(x)] else [])
  }

  /** The entries still loading, in list order. */
  function PendingOnly(bs: seq<Board>): (r: seq<Board>)
    decreases |bs|
  {
    if bs == [] then []
    else
      var x := bs[|bs| - 1];
      PendingOnly(bs[..|bs| - 1]) + (if IsPending(x) then [x] else [])
  }

  /** `retain(Option::is_some)`. */
  function Retained(bs: seq<Board>): (r: seq<Board>)
    decreases |bs|
  {
    if bs == [] then []
    else
      var x := bs[|bs| - 1];
      Retained(bs[..|bs| - 1]) + (if x.Some? then [x] else [])
  }

  /**
   * The removal pass as written: for each noted index in turn, `Vec::remove` at
   * that index of the list as it is now, then unwrap the entry, take the finished
   * promise and unwrap its result, and register the buffer. None: one of those
   * steps panics (the index is past the end, the entry is None, still loading or failed).
   */
  function RemoveAsWritten(bs: seq<Board>, idx: seq<nat>, m: Registry): (r: Option<(seq<Board>, Registry)>)
    ensures idx == [] ==> r == Some((bs, m))
    ensures r.Some? ==> |r.value.0| + |idx| == |bs|
    decreases |idx|
  {
    if idx == [] then Some((bs, m))
    else
      var i := idx[0];
      if i >= |bs| || !ReadyOk(bs[i]) then None
      else RemoveAsWritten(bs[..i] + bs[i + 1..], idx[1..], Register(m, Buffer(bs[i])))
  }

  /**
   * The effect of one reconciliation of `boards_to_open` as written: note the
   * loaded entries and clear the failed ones, remove the noted entries by index,
   * then drop the None entries. None: the frame panics, which happens exactly
   * when two or more pinboards finish loading in the same frame; otherwise the
   * loading entries stay in order and the loaded pinboard is registered.
   */
  function Reconciled(bs: seq<Board>, m: Registry): (r: Option<(seq<Board>, Registry)>)
    ensures r.None? <==> |ReadyIndices(bs)| >= 2
    ensures |ReadyIndices(bs)| < 2 ==> r == Some((PendingOnly(bs), RegisterAll(m, ReadyBuffers(bs))))
  {
    var removed := RemoveAsWritten(ClearFailed(bs), ReadyIndices(bs), m);
    assert |ReadyIndices(bs)| >= 2 ==> removed.None? by {
      if |ReadyIndices(bs)| >= 2 { ManyReadyPanics(bs, m); }
    }
    assert |ReadyIndices(bs)| < 2 ==> AsIntended(bs, m, removed) by {
      if |ReadyIndices(bs)| < 2 { SingleReadyAsIntended(bs, m); }
    }
    match removed
    case None => None
    case Some(p) => Some((Retained(p.0), p.1))
  }

  /**
   * The removal pass did not panic, and dropping the None entries afterwards keeps
   * exactly the loading entries while the loaded pinboards are registered in order.
   */
  ghost predicate AsIntended(bs: seq<Board>, m: Registry, removed: Option<(seq<Board>, Registry)>)
  {
    removed.Some? && Retained(removed.value.0) == PendingOnly(bs) && removed.value.1 == RegisterAll(m, ReadyBuffers(bs))
  }

  lemma {:induction false} PendingOnlyAppend(a: seq<Board>, b: seq<Board>)
    ensures PendingOnly(a + b) == PendingOnly(a) + PendingOnly(b)
    decreases |b|
  {
    if b != [] {
      var b' := b[..|b| - 1];
      assert (a + b)[..|a + b| - 1] == a + b';
      PendingOnlyAppend(a, b');
    } else {
      assert a + b == a;
    }
  }

  /** Removing an entry that is not loading keeps the loading entries as they were. */
  lemma PendingOnlyRemove(s: seq<Board>, i: nat)
    requires i < |s| && !IsPending(s[i])
    ensures PendingOnly(s[..i] + s[i + 1..]) == PendingOnly(s)
  {
    var front := s[..i] + [s[i]];
    assert PendingOnly(s) == PendingOnly(front) + PendingOnly(s[i + 1..]) by {
      assert s == front + s[i + 1..];
      PendingOnlyAppend(front, s[i + 1..]);
    }
    assert PendingOnly(front) == PendingOnly(s[..i]) by {
      assert front[..|front| - 1] == s[..i];
    }
    PendingOnlyAppend(s[..i], s[i + 1..]);
  }

  /** Clearing failed entries does not change which entries are loading. */
  lemma {:induction false} PendingOnlyClearFailed(bs: seq<Board>)
    ensures PendingOnly(ClearFailed(bs)) == PendingOnly(bs)
    decreases |bs|
  {
    if bs != [] {
      var init := bs[..|bs| - 1];
      assert ClearFailed(bs)[..|bs| - 1] == ClearFailed(init);
      PendingOnlyClearFailed(init);
    }
  }

  /** With no loaded and no failed entries left, dropping the None entries keeps exactly the loading ones. */
  lemma {:induction false} RetainedIsPending(s: seq<Board>)
    requires forall i :: 0 <= i < |s| ==> !ReadyOk(s[i]) && !ReadyErr(s[i])
    ensures Retained(s) == PendingOnly(s)
    decreases |s|
  {
    if s != [] {
      var init := s[..|s| - 1];
      assert forall i :: 0 <= i < |init| ==> init[i] == s[i];
      RetainedIsPending(init);
    }
  }

  /** The loaded buffers are the buffers at the loaded positions. */
  lemma {:induction false} ReadyBuffersAt(bs: seq<Board>)
    ensures |ReadyBuffers(bs)| == |ReadyIndices(bs)|
    ensures forall k :: 0 <= k < |ReadyIndices(bs)| ==> ReadyBuffers(bs)[k] == Buffer(bs[ReadyIndices(bs)[k]])
    decreases |bs|
  {
    if bs != [] {
      var init := bs[..|bs| - 1];
      ReadyBuffersAt(init);
      assert forall i :: 0 <= i < |init| ==> init[i] == bs[i];
    }
  }

  /** An entry at a position not among the loaded positions did not load. */
  lemma NotLoadedElsewhere(bs: seq<Board>, j: nat)
    requires j < |bs| && j !in ReadyIndices(bs)
    ensures !ReadyOk(bs[j])
  {
    assert ReadyOk(bs[j]) ==> j in ReadyIndices(bs);
  }

  /** With nothing loaded, dropping the None entries after clearing the failed ones keeps the loading entries. */
  lemma NothingLoadedKeepsPending(bs: seq<Board>)
    requires ReadyIndices(bs) == []
    ensures Retained(ClearFailed(bs)) == PendingOnly(bs)
  {
    var cf := ClearFailed(bs);
    forall i | 0 <= i < |cf|
      ensures !ReadyOk(cf[i]) && !ReadyErr(cf[i])
    {
      NotLoadedElsewhere(bs, i);
    }
    RetainedIsPending(cf);
    PendingOnlyClearFailed(bs);
  }

  lemma {:induction false} RetainedAppend(a: seq<Board>, b: seq<Board>)
    ensures Retained(a + b) == Retained(a) + Retained(b)
    decreases |b|
  {
    if b != [] {
      var b' := b[..|b| - 1];
      assert (a + b)[..|a + b| - 1] == a + b';
      RetainedAppend(a, b');
    } else {
      assert a + b == a;
    }
  }

  /** Entries that neither loaded nor failed. */
  predicate Unfinished(s: seq<Board>)
  {
    forall j :: 0 <= j < |s| ==> !ReadyOk(s[j]) && !ReadyErr(s[j])
  }

  /** Removing the one loaded entry from the cleared list leaves only unfinished entries. */
  lemma RemoveOnlyLoaded(bs: seq<Board>, i: nat)
    requires i < |bs| && forall o :: 0 <= o < |bs| && o != i ==> !ReadyOk(bs[o])
    ensures Unfinished(ClearFailed(bs)[..i]) && Unfinished(ClearFailed(bs)[i + 1..])
  {
    var cf := ClearFailed(bs);
    var tail := cf[i + 1..];
    forall j | 0 <= j < |tail|
      ensures !ReadyOk(tail[j]) && !ReadyErr(tail[j])
    {
      assert tail[j] == cf[i + 1 + j];
    }
  }

  /** With one entry loaded, removing it and dropping the None entries keeps the loading entries. */
  lemma OneLoadedKeepsPending(bs: seq<Board>, i: nat)
    requires ReadyIndices(bs) == [i]
    ensures i < |bs| && ReadyOk(bs[i])
    ensures Retained(ClearFailed(bs)[..i] + ClearFailed(bs)[i + 1..]) == PendingOnly(bs)
  {
    assert i == ReadyIndices(bs)[0];
    forall o | 0 <= o < |bs| && o != i
      ensures !ReadyOk(bs[o])
    {
      NotLoadedElsewhere(bs, o);
    }
    var cf := ClearFailed(bs);
    RemoveOnlyLoaded(bs, i);
    RetainedAppend(cf[..i], cf[i + 1..]);
    RetainedIsPending(cf[..i]);
    RetainedIsPending(cf[i + 1..]);
    PendingOnlyAppend(cf[..i], cf[i + 1..]);
    PendingOnlyRemove(cf, i);
    PendingOnlyClearFailed(bs);
  }

  lemma NothingLoadedAsIntended(bs: seq<Board>, m: Registry)
    requires ReadyIndices(bs) == []
    ensures AsIntended(bs, m, RemoveAsWritten(ClearFailed(bs), ReadyIndices(bs), m))
  {
    assert RemoveAsWritten(ClearFailed(bs), [], m) == Some((ClearFailed(bs), m));
    NothingLoadedKeepsPending(bs);
    assert ReadyBuffers(bs) == [] by {
      ReadyBuffersAt(bs);
    }
  }

  lemma OneLoadedAsIntended(bs: seq<Board>, m: Registry, i: nat)
    requires ReadyIndices(bs) == [i]
    ensures AsIntended(bs, m, RemoveAsWritten(ClearFailed(bs), ReadyIndices(bs), m))
  {
    OneLoadedKeepsPending(bs, i);
    var cf := ClearFailed(bs);
    var b := Buffer(bs[i]);
    assert RemoveAsWritten(cf, [i], m) == Some((cf[..i] + cf[i + 1..], Register(m, b))) by {
      assert cf[i] == bs[i];
      RemoveAsWrittenStep(cf, [i], m);
      assert [i][1..] == [];
    }
    assert ReadyBuffers(bs) == [b] by {
      ReadyBuffersAt(bs);
    }
    assert RegisterAll(m, [b]) == Register(m, b) by {
      RegisterAllSnoc(m, [], b);
      assert [] + [b] == [b];
    }
  }

  /**
   * With at most one pinboard finishing in a frame, the removal pass as written
   * does what was meant: no panic, the loading entries stay in order, and the
   * loaded pinboard is registered.
   */
  lemma SingleReadyAsIntended(bs: seq<Board>, m: Registry)
    requires |ReadyIndices(bs)| <= 1
    ensures AsIntended(bs, m, RemoveAsWritten(ClearFailed(bs), ReadyIndices(bs), m))
  {
    var idx := ReadyIndices(bs);
    if idx == [] {
      NothingLoadedAsIntended(bs, m);
    } else {
      assert idx == [idx[0]];
      OneLoadedAsIntended(bs, m, idx[0]);
    }
  }

  /**
   * Two pinboards finishing in the same frame: the second removal runs past the
   * end of the list, which has already shrunk by one, and the frame panics.
   */
  lemma TwoReadyPanics(a: PinboardBuffer, b: PinboardBuffer, m: Registry)
    ensures Reconciled([Some(Ready(Ok(a))), Some(Ready(Ok(b)))], m) == None
  {
    var bs: seq<Board> := [Some(Ready(Ok(a))), Some(Ready(Ok(b)))];
    assert bs[..1][..0] == [];
    assert ReadyIndices(bs[..1]) == [0];
    assert ReadyIndices(bs) == [0, 1];
    assert ClearFailed(bs) == bs;
    var m' := Register(m, a);
    assert RemoveAsWritten(bs, [0, 1], m) == RemoveAsWritten(bs[1..], [1], m') by {
      assert bs[..0] + bs[1..] == bs[1..];
      assert [0, 1][1..] == [1];
    }
  }

  predicate Ascending(idx: seq<nat>)
  {
    forall k, l :: 0 <= k < l < |idx| ==> idx[k] < idx[l]
  }

  lemma AscendingTail(idx: seq<nat>)
    requires idx != [] && Ascending(idx)
    ensures Ascending(idx[1..])
  {
    var rest := idx[1..];
    forall k, l | 0 <= k < l < |rest| ensures rest[k] < rest[l] {
      assert rest[k] == idx[k + 1] && rest[l] == idx[l + 1];
    }
  }

  /** The number of loaded entries at position `p` or later. */
  function LoadedFrom(s: seq<Board>, p: nat): nat
    decreases |s| - p
  {
    if p >= |s| then 0 else (if ReadyOk(s[p]) then 1 else 0) + LoadedFrom(s, p + 1)
  }

  lemma {:induction false} LoadedFromMono(s: seq<Board>, p: nat, q: nat)
    requires p <= q
    ensures LoadedFrom(s, q) <= LoadedFrom(s, p)
    decreases q - p
  {
    if p < q && p < |s| {
      LoadedFromMono(s, p + 1, q);
    }
  }

  /** After removing position `i`, counting from a later position `q` counts from `q + 1` of the old list. */
  lemma {:induction false} LoadedFromRemove(s: seq<Board>, i: nat, q: nat)
    requires i < |s| && i < q
    ensures LoadedFrom(s[..i] + s[i + 1..], q) == LoadedFrom(s, q + 1)
    decreases |s| - q
  {
    var t := s[..i] + s[i + 1..];
    if q < |t| {
      assert t[q] == s[q + 1];
      LoadedFromRemove(s, i, q + 1);
    }
  }

  lemma {:induction false} LoadedFromClearFailed(bs: seq<Board>, p: nat)
    ensures LoadedFrom(ClearFailed(bs), p) == LoadedFrom(bs, p)
    decreases |bs| - p
  {
    if p < |bs| {
      LoadedFromClearFailed(bs, p + 1);
    }
  }

  /** The loaded entries noted in the first `i` positions and those from `i` on make up all of them. */
  lemma {:induction false} LoadedSplit(bs: seq<Board>, i: nat)
    requires i <= |bs|
    ensures |ReadyIndices(bs[..i])| + LoadedFrom(bs, i) == LoadedFrom(bs, 0)
    decreases i
  {
    if i > 0 {
      LoadedSplit(bs, i - 1);
      ReadyIndicesStep(bs, i - 1);
    }
  }

  /**
   * Once fewer loaded entries remain at or after the next index than there are
   * removals left, the removal pass as written panics: each good removal uses up
   * one loaded entry and skips the one after it.
   */
  lemma {:induction false} RemovalRunsOut(cs: seq<Board>, idx: seq<nat>, m: Registry)
    requires |idx| >= 1
    requires Ascending(idx)
    requires LoadedFrom(cs, idx[0]) < |idx|
    ensures RemoveAsWritten(cs, idx, m) == None
    decreases |idx|
  {
    var i := idx[0];
    if i < |cs| && ReadyOk(cs[i]) {
      var rest := idx[1..];
      assert |rest| >= 1 && rest[0] == idx[1];
      AscendingTail(idx);
      LoadedFromRemove(cs, i, idx[1]);
      LoadedFromMono(cs, i + 1, idx[1] + 1);
      RemovalRunsOut(cs[..i] + cs[i + 1..], rest, Register(m, Buffer(cs[i])));
    }
  }

  /**
   * Whenever two or more pinboards finish loading in the same frame, the
   * removal pass as written panics.
   */
  lemma ManyReadyPanics(bs: seq<Board>, m: Registry)
    requires |ReadyIndices(bs)| >= 2
    ensures RemoveAsWritten(ClearFailed(bs), ReadyIndices(bs), m) == None
  {
    var cs := ClearFailed(bs);
    var idx := ReadyIndices(bs);
    var i0, i1 := idx[0], idx[1];
    assert i0 < i1 by {
      ReadyIndicesAscending(bs);
    }
    assert ReadyOk(cs[i0]) && ReadyOk(cs[i1]);
    var cs1 := cs[..i0] + cs[i0 + 1..];
    var rest := idx[1..];
    assert LoadedFrom(cs, 0) == |idx| by {
      LoadedSplit(bs, |bs|);
      assert bs[..|bs|] == bs;
      LoadedFromClearFailed(bs, 0);
    }
    assert LoadedFrom(cs1, i1) < |rest| by {
      LoadedFromMono(cs, 0, i0);
      LoadedFromMono(cs, i0 + 1, i1);
      LoadedFromRemove(cs, i0, i1);
    }
    assert Ascending(rest) by {
      ReadyIndicesAscending(bs);
      AscendingTail(idx);
    }
    var m1 := Register(m, Buffer(cs[i0]));
    RemovalRunsOut(cs1, rest, m1);
    assert RemoveAsWritten(cs, idx, m) == RemoveAsWritten(cs1, rest, m1) by {
      RemoveAsWrittenStep(cs, idx, m);
    }
  }

  /** `Reconciled` is the removal pass followed by dropping the None entries. */
  lemma ReconciledFromRemoval(bs: seq<Board>, m: Registry)
    ensures RemoveAsWritten(ClearFailed(bs), ReadyIndices(bs), m).None? ==> Reconciled(bs, m) == None
    ensures RemoveAsWritten(ClearFailed(bs), ReadyIndices(bs), m).Some? ==>
      var p := RemoveAsWritten(ClearFailed(bs), ReadyIndices(bs), m).value;
      Reconciled(bs, m) == Some((Retained(p.0), p.1))
  {
  }

  lemma ReadyIndicesStep(bs: seq<Board>, i: nat)
    requires i < |bs|
    ensures ReadyIndices(bs[..i + 1]) == ReadyIndices(bs[..i]) + (if ReadyOk(bs[i]) then [i] else [])
  {
    assert bs[..i + 1][..i] == bs[..i];
  }

  lemma ReadyBuffersStep(bs: seq<Board>, i: nat)
    requires i < |bs|
    ensures ReadyBuffers(bs[..i + 1]) == ReadyBuffers(bs[..i]) + (if ReadyOk(bs[i]) then [Buffer(bs[i])] else [])
  {
    assert bs[..i + 1][..i] == bs[..i];
  }

  lemma PendingOnlyStep(bs: seq<Board>, i: nat)
    requires i < |bs|
    ensures PendingOnly(bs[..i + 1]) == PendingOnly(bs[..i]) + (if IsPending(bs[i]) then [bs[i]] else [])
  {
    assert bs[..i + 1][..i] == bs[..i];
  }

  lemma RegisterAllSnoc(m: Registry, bufs: seq<PinboardBuffer>, b: PinboardBuffer)
    ensures RegisterAll(m, bufs + [b]) == Register(RegisterAll(m, bufs), b)
  {
    assert (bufs + [b])[..|bufs|] == bufs;
  }

  /** One step of the removal pass: a good entry is removed and registered, a bad one panics. */
  lemma RemoveAsWrittenStep(bs: seq<Board>, idx: seq<nat>, m: Registry)
    requires idx != []
    ensures idx[0] >= |bs| || !ReadyOk(bs[idx[0]]) ==> RemoveAsWritten(bs, idx, m) == None
    ensures idx[0] < |bs| && ReadyOk(bs[idx[0]]) ==>
      RemoveAsWritten(bs, idx, m) ==
      RemoveAsWritten(bs[..idx[0]] + bs[idx[0] + 1..], idx[1..], Register(m, Buffer(bs[idx[0]])))
  {
  }

  class PinlabApp {
    var pinboards: Registry
    var boardsToOpen: seq<Board>
    var nvimExt: seq<string>
    var nvimSrv: Option<string>

    ghost predicate Valid()
      reads this
    {
      KeyedByUuid(pinboards)
    }

    /** `PinlabApp::new` from the command-line options. */
    constructor (nvimSrv: Option<string>, nvimExt: Option<seq<string>>)
      ensures Valid()
      ensures pinboards == map[] && boardsToOpen == []
      ensures this.nvimSrv == nvimSrv
      ensures this.nvimExt == if nvimExt.Some? then nvimExt.value else DefaultNvimExt
    {
      pinboards := map[];
      boardsToOpen := [];
      this.nvimSrv := nvimSrv;
      this.nvimExt := if nvimExt.Some? then nvimExt.value else DefaultNvimExt;
    }

    /** "New": an empty, unsaved, untitled pinboard with its window open, filed under `uuid`. */
    method NewPinboard(uuid: Uuid) returns (buf: PinboardBuffer)
      requires Valid()
      modifies this`pinboards
      ensures Valid()
      ensures fresh(buf) && buf.Valid()
      ensures buf.uuid == uuid && buf.title == "Untitled" && buf.graph == Empty
      ensures buf.path == None && buf.unsaved
      ensures pinboards == old(pinboards)[uuid := (buf, true)]
    {
      buf := new PinboardBuffer(uuid, "Untitled", Empty, None, true);
      pinboards := pinboards[uuid := (buf, true)];
    }

    /** "Open...": start reading a pinboard the user picks. */
    method RequestOpen()
      modifies this`boardsToOpen
      ensures boardsToOpen == old(boardsToOpen) + [Some(Pending)]
    {
      boardsToOpen := boardsToOpen + [Some(Pending)];
    }

    /** A blob a pinboard asked to open: launch it, or queue the pinboard it names to be read. */
    method OpenBlob(b: Blob) returns (a: Launch)
      modifies this`boardsToOpen
      ensures a == Route(b, nvimSrv, nvimExt)
      ensures a.QueueBoardOpen? ==> boardsToOpen == old(boardsToOpen) + [Some(Pending)]
      ensures !a.QueueBoardOpen? ==> boardsToOpen == old(boardsToOpen)
    {
      a := Route(b, nvimSrv, nvimExt);
      if a.QueueBoardOpen? {
        boardsToOpen := boardsToOpen + [Some(Pending)];
      }
    }

    /** Register one loaded buffer, as the removal pass does. */
    method RegisterLoaded(buf: PinboardBuffer)
      modifies this`pinboards
      ensures pinboards == Register(old(pinboards), buf)
    {
      if buf.uuid in pinboards {
        pinboards := pinboards[buf.uuid := (pinboards[buf.uuid].0, true)];
      } else {
        pinboards := pinboards[buf.uuid := (buf, true)];
      }
    }

    /**
     * The end of a frame, as written: a first pass notes the loaded entries and
     * clears the failed ones; a second pass removes the noted entries by their
     * original index from the shrinking list; then the None entries are dropped.
     * By the contract of `Reconciled`, this panics exactly when two or more reads
     * finished, and otherwise has the outcome of `ReconcileBoardsFixed`.
     */
    method ReconcileBoards() returns (panicked: bool)
      modifies this`boardsToOpen, this`pinboards
      ensures panicked <==> Reconciled(old(boardsToOpen), old(pinboards)).None?
      ensures !panicked ==> (boardsToOpen, pinboards) == Reconciled(old(boardsToOpen), old(pinboards)).value
    {
      var bs0 := boardsToOpen;
      var indices: seq<nat> := [];
      var i := 0;
      while i < |boardsToOpen|
        invariant |boardsToOpen| == |bs0| && 0 <= i <= |bs0|
        invariant forall j :: 0 <= j < |bs0| ==> boardsToOpen[j] == if j < i then Cleared(bs0[j]) else bs0[j]
        invariant indices == ReadyIndices(bs0[..i])
        invariant pinboards == old(pinboards)
      {
        var p := boardsToOpen[i];
        if p.Some? && p.value.Ready? {
          match p.value.value {
            case Ok(_) =>
              indices := indices + [i];
            case Err(_) =>
              boardsToOpen := boardsToOpen[i := None];
          }
        }
        ReadyIndicesStep(bs0, i);
        i := i + 1;
      }
      assert boardsToOpen == ClearFailed(bs0);
      assert indices == ReadyIndices(bs0) by {
        assert bs0[..|bs0|] == bs0;
      }
      var k := 0;
      while k < |indices|
        invariant 0 <= k <= |indices|
        invariant RemoveAsWritten(boardsToOpen, indices[k..], pinboards) ==
                  RemoveAsWritten(ClearFailed(bs0), indices, old(pinboards))
      {
        var j := indices[k];
        assert indices[k..][1..] == indices[k + 1..];
        RemoveAsWrittenStep(boardsToOpen, indices[k..], pinboards);
        if j >= |boardsToOpen| || !ReadyOk(boardsToOpen[j]) {
          ReconciledFromRemoval(bs0, old(pinboards));
          return true;
        }
        var buf := boardsToOpen[j].value.value.value;
        boardsToOpen := boardsToOpen[..j] + boardsToOpen[j + 1..];
        RegisterLoaded(buf);
        k := k + 1;
      }
      assert RemoveAsWritten(boardsToOpen, indices[k..], pinboards) == Some((boardsToOpen, pinboards)) by {
        assert indices[k..] == [];
      }
      ReconciledFromRemoval(bs0, old(pinboards));
      boardsToOpen := Retained(boardsToOpen);
      panicked := false;
    }

    /**
     * The end of a frame done in one pass: every loaded pinboard is registered,
     * in list order, and only the entries still loading are kept.
     */
    method ReconcileBoardsFixed()
      requires Valid()
      modifies this`boardsToOpen, this`pinboards
      ensures Valid()
      ensures boardsToOpen == PendingOnly(old(boardsToOpen))
      ensures pinboards == RegisterAll(old(pinboards), ReadyBuffers(old(boardsToOpen)))
    {
      var bs := boardsToOpen;
      var kept: seq<Board> := [];
      var i := 0;
      while i < |bs|
        invariant 0 <= i <= |bs|
        invariant kept == PendingOnly(bs[..i])
        invariant pinboards == RegisterAll(old(pinboards), ReadyBuffers(bs[..i]))
      {
        var p := bs[i];
        PendingOnlyStep(bs, i);
        ReadyBuffersStep(bs, i);
        if IsPending(p) {
          kept := kept + [p];
          assert ReadyBuffers(bs[..i + 1]) == ReadyBuffers(bs[..i]);
        } else if ReadyOk(p) {
          RegisterLoaded(Buffer(p));
          RegisterAllSnoc(old(pinboards), ReadyBuffers(bs[..i]), Buffer(p));
        } else {
          assert ReadyBuffers(bs[..i + 1]) == ReadyBuffers(bs[..i]);
        }
        assert pinboards == RegisterAll(old(pinboards), ReadyBuffers(bs[..i + 1]));
        i := i + 1;
      }
      assert bs[..|bs|] == bs;
      boardsToOpen := kept;
    }
  }
}
