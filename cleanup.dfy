/**
 * Clearing the FTP drop directory at start-up: every file at every depth is
 * unlinked and every directory is kept, so that no file left over from an
 * earlier run can be taken for a new image.
 */
module Cleanup {
  /** A directory entry: a file, or a directory with its entries in listing order. */
  datatype Node = File(name: string) | Dir(name: string, children: seq<Node>)

  /** What remains of `nodes` once the walk has passed: the directories, each cleared in turn. */
  function Cleared(nodes: seq<Node>): seq<Node>
    decreases nodes
  {
    if nodes == [] then []
    else Cleared(nodes[..|nodes| - 1]) + ClearedNode(nodes[|nodes| - 1])
  }

  function ClearedNode(n: Node): seq<Node>
    decreases n
  {
    match n
    case File(_) => []
    case Dir(name, children) => [Dir(name, Cleared(children))]
  }

  /** No file anywhere below. */
  predicate NoFiles(nodes: seq<Node>)
    decreases nodes
  {
    forall i :: 0 <= i < |nodes| ==> nodes[i].Dir? && NoFiles(nodes[i].children)
  }

  /** The paths (as name sequences) of every directory below. */
  function DirPaths(nodes: seq<Node>): set<seq<string>>
    decreases nodes
  {
    if nodes == [] then {}
    else DirPaths(nodes[..|nodes| - 1]) + NodeDirPaths(nodes[|nodes| - 1])
  }

  function NodeDirPaths(n: Node): set<seq<string>>
    decreases n
  {
    match n
    case File(_) => {}
    case Dir(name, children) => {[name]} + (set p | p in DirPaths(children) :: [name] + p)
  }

  lemma {:induction false} NoFilesAppend(a: seq<Node>, b: seq<Node>)
    requires NoFiles(a) && NoFiles(b)
    ensures NoFiles(a + b)
  {
    forall i | 0 <= i < |a + b|
      ensures (a + b)[i].Dir? && NoFiles((a + b)[i].children)
    {
      if i < |a| {
        assert (a + b)[i] == a[i];
      } else {
        assert (a + b)[i] == b[i - |a|];
      }
    }
  }

  /** Clearing leaves no file at any depth. */
  lemma {:induction false} ClearedHasNoFiles(nodes: seq<Node>)
    ensures NoFiles(Cleared(nodes))
    decreases nodes
  {
    if nodes != [] {
      ClearedHasNoFiles(nodes[..|nodes| - 1]);
      ClearedNodeHasNoFiles(nodes[|nodes| - 1]);
      NoFilesAppend(Cleared(nodes[..|nodes| - 1]), ClearedNode(nodes[|nodes| - 1]));
    }
  }

  lemma {:induction false} ClearedNodeHasNoFiles(n: Node)
    ensures NoFiles(ClearedNode(n))
    decreases n
  {
    if n.Dir? {
      ClearedHasNoFiles(n.children);
    }
  }

  /** Clearing keeps every directory, the nesting included, and adds none. */
  lemma {:induction false} ClearedKeepsDirectories(nodes: seq<Node>)
    ensures DirPaths(Cleared(nodes)) == DirPaths(nodes)
    decreases nodes
  {
    if nodes != [] {
      var init, last := nodes[..|nodes| - 1], nodes[|nodes| - 1];
      ClearedKeepsDirectories(init);
      ClearedNodeKeepsDirectories(last);
      DirPathsAppend(Cleared(init), ClearedNode(last));
    }
  }

  lemma {:induction false} ClearedNodeKeepsDirectories(n: Node)
    ensures DirPaths(ClearedNode(n)) == NodeDirPaths(n)
    decreases n
  {
    if n.Dir? {
      ClearedKeepsDirectories(n.children);
      var d := Dir(n.name, Cleared(n.children));
      assert ClearedNode(n) == [d];
      assert [d][..0] == [];
    }
  }

  lemma {:induction false} DirPathsAppend(a: seq<Node>, b: seq<Node>)
    ensures DirPaths(a + b) == DirPaths(a) + DirPaths(b)
    decreases |b|
  {
    if b == [] {
      assert a + b == a;
    } else {
      var ab := a + b;
      assert ab[..|ab| - 1] == a + b[..|b| - 1];
      assert ab[|ab| - 1] == b[|b| - 1];
      DirPathsAppend(a, b[..|b| - 1]);
    }
  }

  /**
   * `rmdir(parentPath)`: list the directory, recurse into each
   * subdirectory and unlink each file, in listing order. Returns what is
   * left of the directory's entries.
   */
  method Rmdir(entries: seq<Node>) returns (kept: seq<Node>)
    ensures kept == Cleared(entries)
    decreases entries
  {
    kept := [];
    var i := 0;
    while i < |entries|
      invariant 0 <= i <= |entries|
      invariant kept == Cleared(entries[..i])
    {
      var entry := entries[i];
      assert entries[..i + 1][..i] == entries[..i];
      match entry {
        case Dir(name, children) =>
          var inner := Rmdir(children);
          kept := kept + [Dir(name, inner)];
        case File(_) =>
          // fs.unlinkSync(childPath)
      }
      i := i + 1;
    }
    assert entries[..i] == entries;
  }
}
