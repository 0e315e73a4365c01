/**
 * The data model of a pinboard (src/graph.rs): blobs, their types, relations and
 * connections, and the repair of a blob whose file moved, by searching a directory
 * tree for the unique visible file with the blob's content hash.
 *
 * The file system is an explicit tree (`FsNode`) whose entries carry the outcome of
 * every query the search makes (hidden check, directory listing, file read); the
 * content hash (blake3) is a function passed in by the caller.
 */
module Graph {
  import opened Wrappers
  import opened Paths

  newtype byte = x: int | 0 <= x < 256

  type Bytes = seq<byte>

  /** A content digest; the hash function itself is a parameter `h: HashFn`. */
  type Digest = seq<byte>

  type HashFn = Bytes -> Digest

  /** The failures the application distinguishes (all `anyhow::Error` in the source). */
  datatype Error =
    | Io               // a file or directory could not be read or listed
    | MultipleMatches  // more than one file carries the searched hash
    | Cancelled        // the user dismissed a file dialog

  /** Named colours of the egui palette used for nodes and edges. */
  datatype Color = LightBlue | LightRed | Yellow | LightGreen

  datatype BlobType = PinboardGraph | File
  {
    /** Nodes holding a sub-pinboard are drawn light blue; files use the default colour. */
    function Color(): (c: Option<Color>)
      ensures c.Some? <==> this == PinboardGraph
      ensures c.Some? ==> c.value == LightBlue
    {
      match this
      case PinboardGraph => Some(LightBlue)
      case File => None
    }
  }

  datatype Relation = Conflict | Progress | Insight | Related
  {
    /** Edge colour; `Related` edges take the foreground default. */
    function Color(): (c: Option<Color>)
      ensures c.None? <==> this == Related
    {
      match this
      case Conflict => Some(LightRed)
      case Progress => Some(Yellow)
      case Insight => Some(LightGreen)
      case Related => None
    }

    /** The text shown on an edge of this relation. */
    function Label(): (s: string)
      ensures |s| > 0
    {
      match this
      case Conflict => "Conflict"
      case Progress => "Progress"
      case Insight => "Insight"
      case Related => "Related"
    }
  }

  /** The four labels are distinct, so an edge's label determines its relation. */
  lemma LabelInjective(r1: Relation, r2: Relation)
    requires r1.Label() == r2.Label()
    ensures r1 == r2
  {
  }

  /** The three relation colours are distinct from each other. */
  lemma RelationColorInjective(r1: Relation, r2: Relation)
    requires r1.Color() == r2.Color()
    ensures r1 == r2
  {
  }

  /** A reference to an external document: its type, its location and its content hash. */
  datatype Blob = Blob(ty: BlobType, path: Path, hash: Digest)

  /** Edge payload: an optional comment document and the relation. */
  datatype Conn = Conn(comment: Option<Blob>, relation: Relation)

  /**
   * `Blob::new`: read the file and record its hash; a read failure is the error.
   * `contents` is what reading `path` produced (None: the read failed).
   */
  function NewBlob(ty: BlobType, path: Path, contents: Option<Bytes>, h: HashFn): (r: Result<Blob, Error>)
    ensures r.Ok? <==> contents.Some?
    ensures r.Err? ==> r.error == Io
    ensures r.Ok? ==> r.value.ty == ty && r.value.path == path && r.value.hash == h(contents.value)
  {
    match contents
    case None => Err(Io)
    case Some(bytes) => Ok(Blob(ty, path, h(bytes)))
  }

  // ---------------------------------------------------------------------------
  // The file-system tree the repair search walks.
  // ---------------------------------------------------------------------------

  /**
   * An entry of a directory listing. `hidden` is the outcome of the hidden check
   * (None: the check failed); `listed` is false when the directory cannot be listed
   * (its `entries` are then never looked at);
   * `contents` is None when the file cannot be read; `BrokenEntry` is an entry the
   * listing iterator itself failed to produce.
   */
  datatype FsNode =
    | DirNode(name: string, hidden: Option<bool>, listed: bool, entries: seq<FsNode>)
    | FileNode(name: string, hidden: Option<bool>, contents: Option<Bytes>)
    | BrokenEntry

  /** An entry is searched only when the hidden check succeeded and said "not hidden". */
  predicate Visible(e: FsNode)
  {
    !e.BrokenEntry? && e.hidden == Some(false)
  }

  predicate Listed(n: FsNode)
  {
    n.DirNode? && n.listed
  }

  /** Paths of all visible files under directory `n` (at `dir`) whose hash is `target`, in listing order. */
  ghost function Matches(dir: Path, n: FsNode, h: HashFn, target: Digest): seq<Path>
    decreases n, 1, 0
  {
    if Listed(n) then MatchesIn(dir, n, |n.entries|, h, target) else []
  }

  /** The matches contributed by the first `k` entries of the listing of `n`. */
  ghost function MatchesIn(dir: Path, n: FsNode, k: nat, h: HashFn, target: Digest): seq<Path>
    requires Listed(n) && k <= |n.entries|
    decreases n, 0, k
  {
    if k == 0 then []
    else
      var e := n.entries[k - 1];
      assert e in n.entries;
      MatchesIn(dir, n, k - 1, h, target) + EntryMatches(dir, e, h, target)
  }

  /** The matches contributed by one entry of a directory at `dir`. */
  ghost function EntryMatches(dir: Path, e: FsNode, h: HashFn, target: Digest): seq<Path>
    decreases e, 2, 0
  {
    if !Visible(e) then []
    else if e.DirNode? then Matches(dir + [e.name], e, h, target)
    else if e.contents.Some? && h(e.contents.value) == target then [dir + [e.name]]
    else []
  }

  /** Some query the search makes under directory `n` fails: a listing, an entry or a file read. */
  ghost predicate Faulty(n: FsNode)
    decreases n, 1, 0
  {
    n.DirNode? && (!n.listed || FaultyIn(n, |n.entries|))
  }

  ghost predicate FaultyIn(n: FsNode, k: nat)
    requires Listed(n) && k <= |n.entries|
    decreases n, 0, k
  {
    k > 0 &&
    var e := n.entries[k - 1];
    assert e in n.entries;
    (FaultyIn(n, k - 1) || EntryFaulty(e))
  }

  ghost predicate EntryFaulty(e: FsNode)
    decreases e, 2, 0
  {
    e.BrokenEntry? ||
    (Visible(e) && (if e.DirNode? then Faulty(e) else e.contents.None?))
  }

  /**
   * Reference definition: `p` names a visible, readable file with hash `target`
   * reached from `n` (at `dir`) through visible directories only.
   */
  ghost predicate MatchedBy(dir: Path, n: FsNode, p: Path, h: HashFn, target: Digest)
    decreases n, 1
  {
    Listed(n) &&
    exists i :: 0 <= i < |n.entries| && EntryMatchedBy(dir, n, i, p, h, target)
  }

  ghost predicate EntryMatchedBy(dir: Path, n: FsNode, i: nat, p: Path, h: HashFn, target: Digest)
    requires Listed(n) && i < |n.entries|
    decreases n, 0
  {
    var e := n.entries[i];
    assert e in n.entries;
    Visible(e) &&
    ((e.FileNode? && e.contents.Some? && h(e.contents.value) == target && p == dir + [e.name]) ||
     (e.DirNode? && MatchedBy(dir + [e.name], e, p, h, target)))
  }

  /** The matches of a prefix of a listing are a prefix of those of a longer one; faults persist. */
  lemma {:induction false} PrefixGrows(dir: Path, n: FsNode, i: nat, j: nat, h: HashFn, target: Digest)
    requires Listed(n) && i <= j <= |n.entries|
    ensures MatchesIn(dir, n, i, h, target) <= MatchesIn(dir, n, j, h, target)
    ensures FaultyIn(n, i) ==> FaultyIn(n, j)
    decreases j
  {
    if i < j {
      PrefixGrows(dir, n, i, j - 1, h, target);
    }
  }

  /** `Matches` finds exactly the paths of the reference definition, in both directions. */
  lemma {:induction false} MatchesIff(dir: Path, n: FsNode, p: Path, h: HashFn, target: Digest)
    ensures p in Matches(dir, n, h, target) <==> MatchedBy(dir, n, p, h, target)
    decreases n, 1
  {
    if Listed(n) {
      MatchesInIff(dir, n, |n.entries|, p, h, target);
      assert Matches(dir, n, h, target) == MatchesIn(dir, n, |n.entries|, h, target);
      assert MatchedBy(dir, n, p, h, target) <==>
        exists i :: 0 <= i < |n.entries| && EntryMatchedBy(dir, n, i, p, h, target);
      if MatchedBy(dir, n, p, h, target) {
        var i: nat :| i < |n.entries| && EntryMatchedBy(dir, n, i, p, h, target);
        assert exists j :: 0 <= j < |n.entries| && EntryMatchedBy(dir, n, j, p, h, target);
      }
    } else {
      assert Matches(dir, n, h, target) == [];
      assert !MatchedBy(dir, n, p, h, target);
    }
  }

  lemma {:induction false} MatchesInIff(dir: Path, n: FsNode, k: nat, p: Path, h: HashFn, target: Digest)
    requires Listed(n) && k <= |n.entries|
    ensures p in MatchesIn(dir, n, k, h, target) <==>
            exists i :: 0 <= i < k && EntryMatchedBy(dir, n, i, p, h, target)
    decreases n, 0, k
  {
    if k > 0 {
      var e := n.entries[k - 1];
      assert e in n.entries;
      MatchesInIff(dir, n, k - 1, p, h, target);
      if Visible(e) && e.DirNode? {
        MatchesIff(dir + [e.name], e, p, h, target);
      }
      assert p in EntryMatches(dir, e, h, target) <==> EntryMatchedBy(dir, n, k - 1, p, h, target);
      assert MatchesIn(dir, n, k, h, target) == MatchesIn(dir, n, k - 1, h, target) + EntryMatches(dir, e, h, target);
      if p in MatchesIn(dir, n, k, h, target) {
        if p in EntryMatches(dir, e, h, target) {
          assert EntryMatchedBy(dir, n, k - 1, p, h, target);
        } else {
          assert p in MatchesIn(dir, n, k - 1, h, target);
          var i: nat :| i < k - 1 && EntryMatchedBy(dir, n, i, p, h, target);
          assert i < k && EntryMatchedBy(dir, n, i, p, h, target);
        }
        assert exists i: nat :: i < k && EntryMatchedBy(dir, n, i, p, h, target);
      } else {
        forall i | 0 <= i < k ensures !EntryMatchedBy(dir, n, i, p, h, target) {
          if i == k - 1 {
            assert p !in EntryMatches(dir, e, h, target);
          }
        }
      }
    }
  }

  /** A directory holding two copies of the target, each in its own visible subdirectory. */
  lemma {:induction false} CopiesInTwoDirectoriesConflict(dir: Path, bytes: Bytes, h: HashFn)
    ensures var copy := FileNode("foo.txt", Some(false), Some(bytes));
      var root := DirNode("multi_match", Some(false), true, [
        DirNode("a", Some(false), true, [copy]),
        DirNode("b", Some(false), true, [copy])]);
      !Faulty(root) && |Matches(dir, root, h, h(bytes))| == 2
  {
    var copy := FileNode("foo.txt", Some(false), Some(bytes));
    var a := DirNode("a", Some(false), true, [copy]);
    var b := DirNode("b", Some(false), true, [copy]);
    var root := DirNode("multi_match", Some(false), true, [a, b]);
    var pa, pb := dir + ["a"], dir + ["b"];
    assert EntryMatches(pa, copy, h, h(bytes)) == [pa + ["foo.txt"]];
    assert MatchesIn(pa, a, 1, h, h(bytes)) == MatchesIn(pa, a, 0, h, h(bytes)) + [pa + ["foo.txt"]];
    assert EntryMatches(dir, a, h, h(bytes)) == [pa + ["foo.txt"]];
    assert EntryMatches(pb, copy, h, h(bytes)) == [pb + ["foo.txt"]];
    assert MatchesIn(pb, b, 1, h, h(bytes)) == MatchesIn(pb, b, 0, h, h(bytes)) + [pb + ["foo.txt"]];
    assert EntryMatches(dir, b, h, h(bytes)) == [pb + ["foo.txt"]];
    assert !EntryFaulty(copy);
    assert !FaultyIn(a, 1) && !FaultyIn(b, 1);
    assert !Faulty(a) && !Faulty(b);
    assert !FaultyIn(root, 1) && !EntryFaulty(b);
    assert !FaultyIn(root, 2);
    assert MatchesIn(dir, root, 1, h, h(bytes)) == MatchesIn(dir, root, 0, h, h(bytes)) + [pa + ["foo.txt"]];
    assert MatchesIn(dir, root, 2, h, h(bytes)) == MatchesIn(dir, root, 1, h, h(bytes)) + [pb + ["foo.txt"]];
  }

  /** A directory holding one visible copy of the target: that copy is the unique match. */
  lemma {:induction false} SingleCopyFound(dir: Path, bytes: Bytes, h: HashFn)
    ensures var copy := FileNode("foo.txt", Some(false), Some(bytes));
      var root := DirNode("match", Some(false), true, [copy]);
      !Faulty(root) && Matches(dir, root, h, h(bytes)) == [dir + ["foo.txt"]]
  {
    var copy := FileNode("foo.txt", Some(false), Some(bytes));
    var root := DirNode("match", Some(false), true, [copy]);
    assert !EntryFaulty(copy) && !FaultyIn(root, 1);
    assert MatchesIn(dir, root, 1, h, h(bytes)) == MatchesIn(dir, root, 0, h, h(bytes)) + [dir + ["foo.txt"]];
  }

  /** The only copy of the target sits in a hidden directory: nothing matches and nothing fails. */
  lemma {:induction false} HiddenCopyIgnored(dir: Path, bytes: Bytes, h: HashFn)
    ensures var root := DirNode("hidden_match", Some(false), true, [
        DirNode(".hidden", Some(true), true, [FileNode("foo.txt", Some(false), Some(bytes))]),
        FileNode("other.txt", Some(false), Some(bytes + [0]))]);
      !Faulty(root) && (h(bytes + [0]) != h(bytes) ==> Matches(dir, root, h, h(bytes)) == [])
  {
    var hidden := DirNode(".hidden", Some(true), true, [FileNode("foo.txt", Some(false), Some(bytes))]);
    var other := FileNode("other.txt", Some(false), Some(bytes + [0]));
    var root := DirNode("hidden_match", Some(false), true, [hidden, other]);
    assert !FaultyIn(root, 1) && !EntryFaulty(other);
    assert !FaultyIn(root, 2);
    assert MatchesIn(dir, root, 1, h, h(bytes)) == [];
    assert Matches(dir, root, h, h(bytes)) == EntryMatches(dir, other, h, h(bytes));
  }

  /**
   * `Blob::walk`: search directory `n` (located at `dir`) for the unique visible
   * file whose content hashes to `target`. Every entry is inspected before the
   * count is checked, so uniqueness is judged over the whole subtree; a
   * subdirectory contributes its own unique match, or its error. A root that is
   * not a directory yields no match.
   */
  method Walk(dir: Path, n: FsNode, h: HashFn, target: Digest) returns (r: Result<Option<Path>, Error>)
    ensures !n.DirNode? ==> r == Ok(None)
    ensures r.Err? <==> Faulty(n) || |Matches(dir, n, h, target)| >= 2
    ensures r == Ok(None) <==> !Faulty(n) && Matches(dir, n, h, target) == []
    ensures r.Ok? && r.value.Some? ==> Matches(dir, n, h, target) == [r.value.value]
    ensures r.Ok? && r.value.Some? ==> MatchedBy(dir, n, r.value.value, h, target)
    ensures r.Err? && !Faulty(n) ==> r.error == MultipleMatches
    ensures r.Err? && |Matches(dir, n, h, target)| < 2 ==> r.error == Io
    decreases n
  {
    var count := 0;
    var res: Option<Path> := None;
    if n.DirNode? {
      if !n.listed {
        return Err(Io);
      }
      var entries := n.entries;
      var i := 0;
      while i < |entries|
        invariant 0 <= i <= |entries|
        invariant !FaultyIn(n, i)
        invariant count == |MatchesIn(dir, n, i, h, target)|
        invariant count == 0 ==> res == None
        invariant count > 0 ==> res == Some(MatchesIn(dir, n, i, h, target)[count - 1])
      {
        var e := entries[i];
        assert e in n.entries;
        if e.BrokenEntry? {
          assert FaultyIn(n, i + 1);
          PrefixGrows(dir, n, i + 1, |entries|, h, target);
          return Err(Io);
        }
        // an entry whose hidden check fails is treated as hidden
        if e.hidden == Some(false) {
          var path := dir + [e.name];
          if e.DirNode? {
            var sub := Walk(path, e, h, target);
            if sub.Err? {
              assert Matches(path, e, h, target) == EntryMatches(dir, e, h, target);
              assert MatchesIn(dir, n, i + 1, h, target) ==
                MatchesIn(dir, n, i, h, target) + EntryMatches(dir, e, h, target);
              assert Faulty(e) ==> FaultyIn(n, i + 1);
              PrefixGrows(dir, n, i + 1, |entries|, h, target);
              return sub;
            }
            if sub.value.Some? {
              res := sub.value;
              count := count + 1;
            }
          } else {
            if e.contents.None? {
              assert FaultyIn(n, i + 1);
              PrefixGrows(dir, n, i + 1, |entries|, h, target);
              return Err(Io);
            }
            if h(e.contents.value) == target {
              res := Some(path);
              count := count + 1;
            }
          }
        }
        i := i + 1;
      }
    }
    if count > 1 {
      return Err(MultipleMatches);
    }
    if res.Some? {
      MatchesIff(dir, n, res.value, h, target);
    }
    return Ok(res);
  }

  /** What `try_exists` and the subsequent read found at the blob's recorded path. */
  datatype Probe =
    | Present(contents: Option<Bytes>)  // the path exists; None: reading it failed
    | Absent                            // the path does not exist
    | Unknown                           // the existence check itself failed

  /**
   * `Blob::update`: if the recorded path exists, refresh the hash from its current
   * content; if it is gone, search `root` (at `rootPath`) for the unique visible file
   * with the recorded hash and move the path there; if existence cannot be
   * determined, do nothing. The type never changes. The blob is a value here: the
   * updated blob is returned together with the outcome.
   */
  method Update(b: Blob, probe: Probe, rootPath: Path, root: FsNode, h: HashFn)
    returns (b': Blob, r: Result<(), Error>)
    ensures b'.ty == b.ty
    ensures r.Err? ==> b' == b
    // the path exists: the hash follows the current content, the path is trusted
    ensures probe.Present? && probe.contents.Some? ==>
      r.Ok? && b' == b.(hash := h(probe.contents.value))
    ensures probe.Present? && probe.contents.Some? && b.hash == h(probe.contents.value) ==> b' == b
    ensures probe.Present? && probe.contents.None? ==> r == Err(Io)
    // the path is gone: the hash is kept and the path moves only to the unique match
    ensures probe.Absent? ==> b'.hash == b.hash
    ensures probe.Absent? ==>
      (r.Err? <==> Faulty(root) || |Matches(rootPath, root, h, b.hash)| >= 2)
    ensures probe.Absent? && !Faulty(root) && |Matches(rootPath, root, h, b.hash)| >= 2 ==>
      r == Err(MultipleMatches)
    ensures probe.Absent? && !Faulty(root) && Matches(rootPath, root, h, b.hash) == [] ==>
      r.Ok? && b' == b
    ensures probe.Absent? && !Faulty(root) && |Matches(rootPath, root, h, b.hash)| == 1 ==>
      r.Ok? && b' == b.(path := Matches(rootPath, root, h, b.hash)[0]) &&
      MatchedBy(rootPath, root, b'.path, h, b.hash)
    // the existence check failed: nothing changes
    ensures probe.Unknown? ==> r.Ok? && b' == b
  {
    b' := b;
    match probe {
      case Present(contents) =>
        if contents.None? {
          return b, Err(Io);
        }
        b' := b.(hash := h(contents.value));
      case Absent =>
        var found := Walk(rootPath, root, h, b.hash);
        if found.Err? {
          return b, Err(found.error);
        }
        if found.value.Some? {
          b' := b.(path := found.value.value);
        }
      case Unknown =>
    }
    r := Ok(());
  }
}
