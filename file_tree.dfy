/**
 * The tree of `FileNode`s and the pure operations on it: walking a path of
 * segments, the copy-on-write rebuild that every mutation of the store
 * performs along the path from the root, and the order in which a directory
 * is listed.
 */
module FileTree {
  import opened Wrappers
  import opened Text

  datatype Kind = File | Directory

  /**
   * A `FileNode`. `content` and `children` are optional, as in the source type:
   * a file made by the store has content and no children map, a directory a
   * children map and no content. Timestamps are ticks of an abstract clock.
   */
  datatype Node = Node(
    name: string,
    kind: Kind,
    content: Option<string>,
    children: Option<map<string, Node>>,
    createdAt: nat,
    modifiedAt: nat)

  /** The node `createFile` (kind File) or `createDirectory` (kind Directory) inserts. */
  function NewNode(kind: Kind, name: string, content: string, now: nat): Node {
    if kind == File then Node(name, File, Some(content), None, now, now)
    else Node(name, Directory, None, Some(map[]), now, now)
  }

  /** The children map, or the empty map where there is none (`{ ...node.children }`). */
  function Kids(n: Node): map<string, Node> {
    if n.children.Some? then n.children.value else map[]
  }

  predicate HasChild(n: Node, name: string) {
    n.children.Some? && name in n.children.value
  }

  /** The store's invariant: the root is a directory with a directory `blog` directly under it. */
  predicate HasBlog(root: Node) {
    root.kind == Directory && HasChild(root, "blog") && root.children.value["blog"].kind == Directory
  }

  /** `createDefaultFileSystem`: a root whose only child is the empty directory `blog`. */
  function DefaultRoot(now: nat): (r: Node)
    ensures HasBlog(r) && r.children == Some(map["blog" := NewNode(Directory, "blog", "", now)])
    ensures Lookup(r, ["blog"]) == Some(NewNode(Directory, "blog", "", now))
  {
    Node("root", Directory, None, Some(map["blog" := NewNode(Directory, "blog", "", now)]), now, now)
  }

  // ---------------------------------------------------------------------------
  // walking a path
  // ---------------------------------------------------------------------------

  /** The walk of `getNodeAtPath`: fails at a missing segment or at a node without children. */
  function Lookup(n: Node, path: seq<string>): Option<Node>
    decreases |path|
  {
    if path == [] then Some(n)
    else if !HasChild(n, path[0]) then None
    else Lookup(n.children.value[path[0]], path[1..])
  }

  /** Walking `a + b` is walking `a`, then `b` from where `a` ends. */
  lemma {:induction false} LookupAppend(n: Node, a: seq<string>, b: seq<string>)
    ensures Lookup(n, a + b) == if Lookup(n, a).Some? then Lookup(Lookup(n, a).value, b) else None
    decreases |a|
  {
    if a == [] {
      assert a + b == b;
    } else {
      assert (a + b)[0] == a[0] && (a + b)[1..] == a[1..] + b;
      if HasChild(n, a[0]) {
        LookupAppend(n.children.value[a[0]], a[1..], b);
      }
    }
  }

  /** One more step of a walk. */
  lemma LookupStep(n: Node, a: seq<string>, x: string)
    ensures Lookup(n, a + [x]) ==
      if Lookup(n, a).Some? && HasChild(Lookup(n, a).value, x)
      then Some(Lookup(n, a).value.children.value[x]) else None
  {
    LookupAppend(n, a, [x]);
    if Lookup(n, a).Some? {
      assert [x][1..] == [];
    }
  }

  /** A walk that reaches `current` after `i` steps and can go on reaches its child. */
  lemma LookupPrefixStep(n: Node, parts: seq<string>, i: nat, current: Node)
    requires i < |parts| && Lookup(n, parts[..i]) == Some(current) && HasChild(current, parts[i])
    ensures Lookup(n, parts[..i + 1]) == Some(current.children.value[parts[i]])
  {
    LookupStep(n, parts[..i], parts[i]);
    assert parts[..i + 1] == parts[..i] + [parts[i]];
  }

  /** A walk that stops short of the end fails. */
  lemma LookupPrefixMiss(n: Node, parts: seq<string>, i: nat, current: Node)
    requires i < |parts| && Lookup(n, parts[..i]) == Some(current) && !HasChild(current, parts[i])
    ensures Lookup(n, parts).None?
  {
    LookupStep(n, parts[..i], parts[i]);
    assert parts[..i + 1] == parts[..i] + [parts[i]];
    LookupAppend(n, parts[..i + 1], parts[i + 1..]);
    assert parts[..i + 1] + parts[i + 1..] == parts;
  }

  // ---------------------------------------------------------------------------
  // the copy-on-write rebuild
  // ---------------------------------------------------------------------------

  /** What a mutation does in the directory at the end of its path. */
  datatype Edit =
    | Insert(name: string, child: Node)   // createFile, createDirectory
    | Remove(name: string)                // deleteNode
    | Write(name: string, text: string)   // writeFile

  predicate SameEntry(a: Node, b: Node) {
    a.name == b.name && a.kind == b.kind && a.content == b.content && a.createdAt == b.createdAt
  }

  /** The leaf case (`pathParts.length === 0`) of the `updateNode` helpers. */
  function EditAt(n: Node, e: Edit, now: nat): (r: Node)
    ensures SameEntry(r, n)
  {
    match e
    case Insert(name, child) => n.(children := Some(Kids(n)[name := child]), modifiedAt := now)
    case Remove(name) => n.(children := Some(Kids(n) - {name}), modifiedAt := now)
    case Write(name, text) =>
      if !HasChild(n, name) || n.children.value[name].kind != File then n
      else
        var f := n.children.value[name];
        n.(children := Some(n.children.value[name := f.(content := Some(text), modifiedAt := now)]),
           modifiedAt := now)
  }

  /**
   * The `updateNode` helpers: rebuild the nodes along `path`, stop unchanged where a
   * segment is missing, and apply `e` at the end. The create and delete helpers stamp
   * every node they rebuild; the writeFile helper does not stamp the ancestors.
   */
  function Rebuild(n: Node, path: seq<string>, e: Edit, now: nat): (r: Node)
    ensures SameEntry(r, n)
    decreases |path|
  {
    if path == [] then EditAt(n, e, now)
    else if !HasChild(n, path[0]) then n
    else
      var kids := n.children.value;
      n.(children := Some(kids[path[0] := Rebuild(kids[path[0]], path[1..], e, now)]),
         modifiedAt := if e.Write? then n.modifiedAt else now)
  }

  /** The path of the entry an edit adds, removes or rewrites. */
  function Target(path: seq<string>, e: Edit): seq<string> {
    path + [e.name]
  }

  /** Neither path is a prefix of the other: they part at some segment. */
  predicate Diverges(a: seq<string>, b: seq<string>) {
    |a| > 0 && |b| > 0 && (a[0] != b[0] || Diverges(a[1..], b[1..]))
  }

  predicate IsPrefix(a: seq<string>, b: seq<string>) {
    |a| <= |b| && b[..|a|] == a
  }

  /** When the walk to the parent succeeds, the parent ends up edited in place. */
  lemma {:induction false} RebuildReachesParent(n: Node, path: seq<string>, e: Edit, now: nat)
    requires Lookup(n, path).Some?
    ensures Lookup(Rebuild(n, path, e, now), path) == Some(EditAt(Lookup(n, path).value, e, now))
    decreases |path|
  {
    if path != [] {
      RebuildReachesParent(n.children.value[path[0]], path[1..], e, now);
    }
  }

  /** Every path that parts from the edited entry's path leads to the same node as before. */
  lemma {:induction false} RebuildFrame(n: Node, path: seq<string>, e: Edit, now: nat, q: seq<string>)
    requires Diverges(q, Target(path, e))
    ensures Lookup(Rebuild(n, path, e, now), q) == Lookup(n, q)
    decreases |path|
  {
    var r := Rebuild(n, path, e, now);
    if path == [] {
      assert q[0] != e.name by {
        assert Target(path, e) == [e.name];
        assert Target(path, e)[1..] == [];
      }
      if HasChild(n, q[0]) {
        assert HasChild(r, q[0]) && r.children.value[q[0]] == n.children.value[q[0]];
      } else {
        assert !HasChild(r, q[0]);
      }
    } else if HasChild(n, path[0]) {
      if q[0] == path[0] {
        assert Target(path, e)[1..] == Target(path[1..], e);
        RebuildFrame(n.children.value[path[0]], path[1..], e, now, q[1..]);
      } else if HasChild(n, q[0]) {
        assert r.children.value[q[0]] == n.children.value[q[0]];
      }
    }
  }

  /**
   * The nodes on the way to the parent keep their entry; each one the rebuild
   * passes through is stamped `now`, except by a write, which stamps none of them.
   */
  lemma {:induction false} RebuildAlongPath(n: Node, path: seq<string>, e: Edit, now: nat, k: nat)
    requires k <= |path| && Lookup(n, path[..k]).Some?
    ensures Lookup(Rebuild(n, path, e, now), path[..k]).Some?
    ensures SameEntry(Lookup(Rebuild(n, path, e, now), path[..k]).value, Lookup(n, path[..k]).value)
    ensures k < |path| && Lookup(n, path[..k + 1]).Some? && !e.Write? ==>
      Lookup(Rebuild(n, path, e, now), path[..k]).value.modifiedAt == now
    ensures k < |path| && e.Write? ==>
      Lookup(Rebuild(n, path, e, now), path[..k]).value.modifiedAt == Lookup(n, path[..k]).value.modifiedAt
    decreases k
  {
    if k == 0 {
      assert path[..0] == [];
      if k < |path| {
        assert path[..1] == [path[0]];
      }
    } else {
      assert path[..k] == [path[0]] + path[1..][..k - 1];
      assert path[..k][1..] == path[1..][..k - 1];
      if k < |path| {
        assert path[..k + 1][1..] == path[1..][..k];
      }
      RebuildAlongPath(n.children.value[path[0]], path[1..], e, now, k - 1);
    }
  }

  /** A write whose target is not an existing file leaves the tree exactly as it was. */
  lemma {:induction false} RebuildWriteMissing(n: Node, path: seq<string>, name: string, text: string, now: nat)
    requires Lookup(n, path + [name]).None? || Lookup(n, path + [name]).value.kind != File
    ensures Rebuild(n, path, Write(name, text), now) == n
    decreases |path|
  {
    LookupStep(n, path, name);
    if path != [] && HasChild(n, path[0]) {
      var c := n.children.value[path[0]];
      assert (path + [name])[1..] == path[1..] + [name];
      RebuildWriteMissing(c, path[1..], name, text, now);
      assert n.children.value[path[0] := c] == n.children.value;
    }
  }

  /** The entry an insert adds is found at its path. */
  lemma InsertFound(n: Node, path: seq<string>, child: Node, now: nat)
    requires Lookup(n, path).Some?
    ensures Lookup(Rebuild(n, path, Insert(child.name, child), now), path + [child.name]) == Some(child)
  {
    var e := Insert(child.name, child);
    RebuildReachesParent(n, path, e, now);
    LookupStep(Rebuild(n, path, e, now), path, child.name);
  }

  /** The entry a removal names is gone, and nothing below it can be reached. */
  lemma RemoveGone(n: Node, path: seq<string>, name: string, now: nat, rest: seq<string>)
    requires Lookup(n, path).Some?
    ensures Lookup(Rebuild(n, path, Remove(name), now), path + [name] + rest).None?
  {
    var r := Rebuild(n, path, Remove(name), now);
    RebuildReachesParent(n, path, Remove(name), now);
    LookupStep(r, path, name);
    LookupAppend(r, path + [name], rest);
  }

  /** A write to an existing file replaces its content, stamps it, and keeps the rest of its entry. */
  lemma WriteFound(n: Node, path: seq<string>, name: string, text: string, now: nat)
    requires Lookup(n, path + [name]).Some? && Lookup(n, path + [name]).value.kind == File
    ensures Lookup(Rebuild(n, path, Write(name, text), now), path + [name]) ==
      Some(Lookup(n, path + [name]).value.(content := Some(text), modifiedAt := now))
  {
    LookupStep(n, path, name);
    RebuildReachesParent(n, path, Write(name, text), now);
    LookupStep(Rebuild(n, path, Write(name, text), now), path, name);
  }

  /** Whatever is rebuilt, `/blog` stays a directory unless the edit is an insert or removal of `blog` at the root. */
  lemma {:induction false} RebuildKeepsBlog(n: Node, path: seq<string>, e: Edit, now: nat)
    requires HasBlog(n)
    requires path == [] && e.name == "blog" ==> e.Write?
    ensures HasBlog(Rebuild(n, path, e, now))
  {
    var r := Rebuild(n, path, e, now);
    if path == [] {
      if e.name != "blog" {
        assert r.children.value["blog"] == n.children.value["blog"];
      }
    } else if HasChild(n, path[0]) && path[0] == "blog" {
      assert r.children.value["blog"] == Rebuild(n.children.value["blog"], path[1..], e, now);
    } else if HasChild(n, path[0]) {
      assert r.children.value["blog"] == n.children.value["blog"];
    }
  }
}
