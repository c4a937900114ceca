/**
 * The filesystem store: the tree rooted at `root` and the working directory
 * `currentPath`. The functions below state what each store operation returns
 * and what tree it leaves, given the tree and working directory before the
 * call; the class `FileSystem` holds the two fields and performs the
 * operations step by step, proved against those functions.
 */
module FileSystemStore {
  import opened Wrappers
  import opened Text
  import opened FileTree
  import opened Listing

  // ---------------------------------------------------------------------------
  // paths as the store reads them
  // ---------------------------------------------------------------------------

  /** A path not starting with `/` is read below `currentPath`, whatever its segments are. */
  function Absolute(cwd: string, path: string): string {
    if StartsWith(path, "/") then path else cwd + "/" + path
  }

  /** The segments the store walks for `path`. */
  function PathParts(cwd: string, path: string): (r: seq<string>)
    ensures forall i :: 0 <= i < |r| ==> IsSegment(r[i])
  {
    Segments(Absolute(cwd, path))
  }

  /** `getNodeAtPath` */
  function NodeAt(root: Node, cwd: string, path: string): Option<Node> {
    Lookup(root, PathParts(cwd, path))
  }

  /** The parent's segments and the leaf name (`parts.pop()`). */
  datatype Location = Location(parent: seq<string>, leaf: string)

  function Locate(cwd: string, path: string): (r: Option<Location>)
    ensures r.None? <==> PathParts(cwd, path) == []
    ensures r.Some? ==> PathParts(cwd, path) == r.value.parent + [r.value.leaf] && IsSegment(r.value.leaf)
  {
    var parts := PathParts(cwd, path);
    if parts == [] then None
    else
      assert parts == parts[..|parts| - 1] + [parts[|parts| - 1]];
      Some(Location(parts[..|parts| - 1], parts[|parts| - 1]))
  }

  // ---------------------------------------------------------------------------
  // the operations, on values
  // ---------------------------------------------------------------------------

  /** `createFile` (kind File) and `createDirectory` (kind Directory): the new root, or None where they return false. */
  function CreateAt(root: Node, cwd: string, path: string, kind: Kind, content: string, now: nat): Option<Node>
  {
    match Locate(cwd, path)
    case None => None
    case Some(loc) =>
      var parent := Lookup(root, loc.parent);
      if parent.None? || parent.value.kind != Directory || HasChild(parent.value, loc.leaf) then None
      else Some(Rebuild(root, loc.parent, Insert(loc.leaf, NewNode(kind, loc.leaf, content, now)), now))
  }

  /** `deleteNode`: the new root, or None where it returns false. */
  function DeleteAt(root: Node, cwd: string, path: string, now: nat): Option<Node>
  {
    match Locate(cwd, path)
    case None => None
    case Some(loc) =>
      if loc.parent == [] && loc.leaf == "blog" then None
      else Some(Rebuild(root, loc.parent, Remove(loc.leaf), now))
  }

  /** `writeFile`: the new root, or None where it returns false. */
  function WriteAt(root: Node, cwd: string, path: string, content: string, now: nat): Option<Node>
  {
    match Locate(cwd, path)
    case None => None
    case Some(loc) => Some(Rebuild(root, loc.parent, Write(loc.leaf, content), now))
  }

  /** `readFile` */
  function ReadAt(root: Node, cwd: string, path: string): (r: Option<string>)
    ensures r.Some? <==> NodeAt(root, cwd, path).Some? && NodeAt(root, cwd, path).value.kind == File
  {
    var node := NodeAt(root, cwd, path);
    if node.None? || node.value.kind != File then None
    else Some(node.value.content.GetOr(""))
  }

  /** `listDirectory` */
  function ListAt(root: Node, cwd: string, path: string): (r: Option<seq<Node>>)
    ensures r.Some? <==>
      NodeAt(root, cwd, path).Some? && NodeAt(root, cwd, path).value.kind == Directory
      && NodeAt(root, cwd, path).value.children.Some?
    ensures r.Some? ==>
      var kids := NodeAt(root, cwd, path).value.children.value;
      && |r.value| == |kids|
      && (forall k :: k in kids ==> kids[k] in r.value)
      && (forall x :: x in r.value ==> x in kids.Values)
      && (forall i, j :: 0 <= i < j < |r.value| && r.value[j].kind == Directory ==> r.value[i].kind == Directory)
      && (forall i, j :: 0 <= i < j < |r.value| && r.value[i].kind == r.value[j].kind ==>
            LexLe(r.value[i].name, r.value[j].name))
  {
    var node := NodeAt(root, cwd, path);
    if node.None? || node.value.kind != Directory || node.value.children.None? then None
    else Some(ListingOf(node.value.children.value))
  }

  /** `listDirectory` gives each child once per key that holds it. */
  lemma ListAtCounts(root: Node, cwd: string, path: string, v: Node)
    requires ListAt(root, cwd, path).Some?
    ensures var kids := NodeAt(root, cwd, path).value.children.value;
      multiset(ListAt(root, cwd, path).value)[v] == |set k | k in kids && kids[k] == v|
  {
    ListingCounts(NodeAt(root, cwd, path).value.children.value, v);
  }

  // ---------------------------------------------------------------------------
  // properties of the operations
  // ---------------------------------------------------------------------------

  /** A walk that succeeds passes through every prefix of its path. */
  lemma PrefixResolves(n: Node, p: seq<string>, k: nat)
    requires k <= |p| && Lookup(n, p).Some?
    ensures Lookup(n, p[..k]).Some?
  {
    LookupAppend(n, p[..k], p[k..]);
    assert p[..k] + p[k..] == p;
  }

  /** A path that does not run through the edited entry keeps whether it resolves and the entry it reaches. */
  lemma {:induction false} RebuildAgrees(n: Node, path: seq<string>, e: Edit, now: nat, q: seq<string>)
    requires !IsPrefix(Target(path, e), q)
    ensures var before, after := Lookup(n, q), Lookup(Rebuild(n, path, e, now), q);
      before.Some? == after.Some? && (before.Some? ==> SameEntry(after.value, before.value))
    decreases |path|
  {
    var r := Rebuild(n, path, e, now);
    if q != [] {
      if path == [] {
        assert Target(path, e) == [e.name];
        assert q[..1] == [q[0]];
        if HasChild(n, q[0]) {
          assert r.children.value[q[0]] == n.children.value[q[0]];
        }
      } else if HasChild(n, path[0]) {
        if q[0] == path[0] {
          var t := Target(path[1..], e);
          assert Target(path, e) == [path[0]] + t;
          if |t| <= |q[1..]| {
            assert q[..|t| + 1] == [q[0]] + q[1..][..|t|];
          }
          RebuildAgrees(n.children.value[path[0]], path[1..], e, now, q[1..]);
        } else if HasChild(n, q[0]) {
          assert r.children.value[q[0]] == n.children.value[q[0]];
        }
      }
    }
  }

  /**
   * After a successful create, the path leads to the new node; every path that
   * parts from it leads where it did; and each directory from the root down to
   * the parent is stamped `now`.
   */
  lemma CreateEffect(root: Node, cwd: string, path: string, kind: Kind, content: string, now: nat)
    requires CreateAt(root, cwd, path, kind, content, now).Some?
    ensures var r := CreateAt(root, cwd, path, kind, content, now).value;
      && NodeAt(r, cwd, path) == Some(NewNode(kind, Locate(cwd, path).value.leaf, content, now))
      && (forall q :: Diverges(q, PathParts(cwd, path)) ==> Lookup(r, q) == Lookup(root, q))
      && (forall k :: 0 <= k < |PathParts(cwd, path)| ==>
            Lookup(r, PathParts(cwd, path)[..k]).Some? && Lookup(r, PathParts(cwd, path)[..k]).value.modifiedAt == now)
  {
    var loc := Locate(cwd, path).value;
    var child := NewNode(kind, loc.leaf, content, now);
    var e := Insert(loc.leaf, child);
    var r := Rebuild(root, loc.parent, e, now);
    var parts := PathParts(cwd, path);
    InsertFound(root, loc.parent, child, now);
    forall q | Diverges(q, parts) ensures Lookup(r, q) == Lookup(root, q) {
      RebuildFrame(root, loc.parent, e, now, q);
    }
    forall k | 0 <= k < |parts| ensures Lookup(r, parts[..k]).Some? && Lookup(r, parts[..k]).value.modifiedAt == now {
      assert parts[..k] == loc.parent[..k];
      if k < |loc.parent| {
        PrefixResolves(root, loc.parent, k);
        PrefixResolves(root, loc.parent, k + 1);
        RebuildAlongPath(root, loc.parent, e, now, k);
      } else {
        assert loc.parent[..k] == loc.parent;
        RebuildReachesParent(root, loc.parent, e, now);
      }
    }
  }

  /** Creating the same path a second time is refused. */
  lemma CreateTwiceRefused(root: Node, cwd: string, path: string, kind: Kind, content: string, now: nat,
                           kind': Kind, content': string, now': nat)
    requires CreateAt(root, cwd, path, kind, content, now).Some?
    ensures CreateAt(CreateAt(root, cwd, path, kind, content, now).value, cwd, path, kind', content', now').None?
  {
    var r := CreateAt(root, cwd, path, kind, content, now).value;
    var loc := Locate(cwd, path).value;
    CreateEffect(root, cwd, path, kind, content, now);
    LookupStep(r, loc.parent, loc.leaf);
  }

  /** A create that succeeds reads back as the content it was given. */
  lemma ReadAfterCreate(root: Node, cwd: string, path: string, content: string, now: nat)
    requires CreateAt(root, cwd, path, File, content, now).Some?
    ensures ReadAt(CreateAt(root, cwd, path, File, content, now).value, cwd, path) == Some(content)
  {
    CreateEffect(root, cwd, path, File, content, now);
  }

  /** `/blog` is still a directory under the root after any create. */
  lemma CreateKeepsBlog(root: Node, cwd: string, path: string, kind: Kind, content: string, now: nat)
    requires HasBlog(root) && CreateAt(root, cwd, path, kind, content, now).Some?
    ensures HasBlog(CreateAt(root, cwd, path, kind, content, now).value)
  {
    var loc := Locate(cwd, path).value;
    RebuildKeepsBlog(root, loc.parent, Insert(loc.leaf, NewNode(kind, loc.leaf, content, now)), now);
  }

  /** `deleteNode` refuses exactly an empty leaf and `blog` directly under the root. */
  lemma DeleteRefusals(root: Node, cwd: string, path: string, now: nat)
    ensures DeleteAt(root, cwd, path, now).None? <==> PathParts(cwd, path) == [] || PathParts(cwd, path) == ["blog"]
  {
    var parts := PathParts(cwd, path);
    if parts != [] {
      var loc := Locate(cwd, path).value;
      if parts == ["blog"] {
        assert |loc.parent| == 0;
      }
    }
  }

  /** `/blog` is still a directory under the root after any delete. */
  lemma DeleteKeepsBlog(root: Node, cwd: string, path: string, now: nat)
    requires HasBlog(root) && DeleteAt(root, cwd, path, now).Some?
    ensures HasBlog(DeleteAt(root, cwd, path, now).value)
  {
    var loc := Locate(cwd, path).value;
    RebuildKeepsBlog(root, loc.parent, Remove(loc.leaf), now);
  }

  /**
   * After a delete that reports success the path no longer resolves; every path
   * that parts from it leads where it did; and when nothing was there to delete,
   * every path resolves exactly when it did before, to the same entry.
   */
  lemma DeleteEffect(root: Node, cwd: string, path: string, now: nat)
    requires DeleteAt(root, cwd, path, now).Some?
    ensures var r := DeleteAt(root, cwd, path, now).value;
      && NodeAt(r, cwd, path).None?
      && (forall q :: Diverges(q, PathParts(cwd, path)) ==> Lookup(r, q) == Lookup(root, q))
      && (NodeAt(root, cwd, path).None? ==> forall q ::
            Lookup(r, q).Some? == Lookup(root, q).Some?
            && (Lookup(r, q).Some? ==> SameEntry(Lookup(r, q).value, Lookup(root, q).value)))
  {
    var loc := Locate(cwd, path).value;
    var e := Remove(loc.leaf);
    var r := Rebuild(root, loc.parent, e, now);
    var parts := PathParts(cwd, path);
    assert Target(loc.parent, e) == parts;
    if Lookup(root, loc.parent).Some? {
      RemoveGone(root, loc.parent, loc.leaf, now, []);
      assert loc.parent + [loc.leaf] + [] == parts;
    } else {
      assert !IsPrefix(parts, loc.parent);
      RebuildAgrees(root, loc.parent, e, now, loc.parent);
      LookupStep(r, loc.parent, loc.leaf);
    }
    forall q | Diverges(q, parts) ensures Lookup(r, q) == Lookup(root, q) {
      RebuildFrame(root, loc.parent, e, now, q);
    }
    if NodeAt(root, cwd, path).None? {
      forall q ensures Lookup(r, q).Some? == Lookup(root, q).Some?
        && (Lookup(r, q).Some? ==> SameEntry(Lookup(r, q).value, Lookup(root, q).value))
      {
        if IsPrefix(parts, q) {
          assert parts + q[|parts|..] == q;
          LookupAppend(root, parts, q[|parts|..]);
          LookupAppend(r, parts, q[|parts|..]);
        } else {
          RebuildAgrees(root, loc.parent, e, now, q);
        }
      }
    }
  }

  /** `writeFile` returns false exactly when the path has no leaf. */
  lemma WriteRefusals(root: Node, cwd: string, path: string, content: string, now: nat)
    ensures WriteAt(root, cwd, path, content, now).None? <==> PathParts(cwd, path) == []
  {
  }

  /**
   * A write replaces the content of an existing file and stamps the file and its
   * parent, which otherwise keeps its entry; the directories above the parent
   * keep their stamps. In every other case it reports success and leaves the
   * tree exactly as it was.
   */
  lemma WriteEffect(root: Node, cwd: string, path: string, content: string, now: nat)
    requires WriteAt(root, cwd, path, content, now).Some?
    ensures var r := WriteAt(root, cwd, path, content, now).value;
      var old_ := NodeAt(root, cwd, path);
      var parts := PathParts(cwd, path);
      if old_.Some? && old_.value.kind == File then
        && NodeAt(r, cwd, path) == Some(old_.value.(content := Some(content), modifiedAt := now))
        && (forall q :: Diverges(q, parts) ==> Lookup(r, q) == Lookup(root, q))
        && (forall k :: 0 <= k < |parts| - 1 ==>
              && Lookup(root, parts[..k]).Some? && Lookup(r, parts[..k]).Some?
              && Lookup(r, parts[..k]).value.modifiedAt == Lookup(root, parts[..k]).value.modifiedAt)
        && parts != []
        && var parent := parts[..|parts| - 1];
          && Lookup(root, parent).Some? && Lookup(r, parent).Some?
          && SameEntry(Lookup(r, parent).value, Lookup(root, parent).value)
          && Lookup(r, parent).value.modifiedAt == now
      else r == root
  {
    var loc := Locate(cwd, path).value;
    var e := Write(loc.leaf, content);
    var r := Rebuild(root, loc.parent, e, now);
    var parts := PathParts(cwd, path);
    var old_ := NodeAt(root, cwd, path);
    if old_.Some? && old_.value.kind == File {
      WriteFound(root, loc.parent, loc.leaf, content, now);
      forall q | Diverges(q, parts) ensures Lookup(r, q) == Lookup(root, q) {
        RebuildFrame(root, loc.parent, e, now, q);
      }
      LookupStep(root, loc.parent, loc.leaf);
      forall k | 0 <= k < |parts| - 1
        ensures && Lookup(root, parts[..k]).Some? && Lookup(r, parts[..k]).Some?
                && Lookup(r, parts[..k]).value.modifiedAt == Lookup(root, parts[..k]).value.modifiedAt
      {
        assert parts[..k] == loc.parent[..k];
        PrefixResolves(root, loc.parent, k);
        RebuildAlongPath(root, loc.parent, e, now, k);
      }
      RebuildReachesParent(root, loc.parent, e, now);
    } else {
      RebuildWriteMissing(root, loc.parent, loc.leaf, content, now);
    }
  }

  /** Below a directory root, a write to an existing file reads back as the new content. */
  lemma ReadAfterWrite(root: Node, cwd: string, path: string, content: string, now: nat)
    requires root.kind == Directory
    requires NodeAt(root, cwd, path).Some? && NodeAt(root, cwd, path).value.kind == File
    ensures WriteAt(root, cwd, path, content, now).Some?
    ensures ReadAt(WriteAt(root, cwd, path, content, now).value, cwd, path) == Some(content)
  {
    assert PathParts(cwd, path) != [];
    WriteEffect(root, cwd, path, content, now);
  }

  /** `/blog` is still a directory under the root after any write. */
  lemma WriteKeepsBlog(root: Node, cwd: string, path: string, content: string, now: nat)
    requires HasBlog(root) && WriteAt(root, cwd, path, content, now).Some?
    ensures HasBlog(WriteAt(root, cwd, path, content, now).value)
  {
    var loc := Locate(cwd, path).value;
    RebuildKeepsBlog(root, loc.parent, Write(loc.leaf, content), now);
  }

  /** The default tree lists exactly the directory `blog` at the root. */
  lemma DefaultListing(now: nat)
    ensures ListAt(DefaultRoot(now), "/", "/") == Some([NewNode(Directory, "blog", "", now)])
  {
    var root := DefaultRoot(now);
    SegmentsOfRootedJoin([]);
    assert "/" + Join([], '/') == "/";
    assert "/"[..1] == "/";
    assert NodeAt(root, "/", "/") == Some(root);
    var l := ListAt(root, "/", "/").value;
    assert |l| == 1 && l[0] in root.children.value.Values;
    assert l == [l[0]];
  }

  /** The default `/blog` is an empty directory. */
  lemma DefaultBlogEmpty(now: nat)
    ensures ListAt(DefaultRoot(now), "/", "/blog") == Some([])
  {
    SegmentsOfRootedJoin(["blog"]);
    assert "/" + Join(["blog"], '/') == "/blog";
    assert "/blog"[..1] == "/";
    assert NodeAt(DefaultRoot(now), "/", "/blog") == Some(NewNode(Directory, "blog", "", now));
  }

  // ---------------------------------------------------------------------------
  // the store object
  // ---------------------------------------------------------------------------

  class FileSystem {
    var root: Node
    var currentPath: string

    /** The invariant every operation keeps: `/blog` is a directory under a directory root. */
    ghost predicate Valid()
      reads this
    {
      HasBlog(root)
    }

    /** The store as `loadFileSystem` builds it when nothing is persisted. */
    constructor(now: nat)
      ensures Valid()
      ensures root == DefaultRoot(now) && currentPath == "/"
    {
      root := DefaultRoot(now);
      currentPath := "/";
    }

    /** `getNodeAtPath`: the walk from the root, one segment at a time. */
    method GetNodeAtPath(path: string) returns (r: Option<Node>)
      ensures r == NodeAt(root, currentPath, path)
    {
      var normalized := if StartsWith(path, "/") then path else currentPath + "/" + path;
      var parts := Segments(normalized);
      assert parts == PathParts(currentPath, path);
      if |parts| == 0 {
        return Some(root);
      }
      var current := root;
      for i := 0 to |parts|
        invariant Lookup(root, parts[..i]) == Some(current)
      {
        if !HasChild(current, parts[i]) {
          LookupPrefixMiss(root, parts, i, current);
          return None;
        }
        LookupPrefixStep(root, parts, i, current);
        current := current.children.value[parts[i]];
      }
      assert parts[..|parts|] == parts;
      return Some(current);
    }

    /** `setCurrentPath`: stores the path as given, without looking it up. */
    method SetCurrentPath(path: string)
      requires Valid()
      modifies this
      ensures Valid()
      ensures currentPath == path && root == old(root)
    {
      currentPath := path;
    }

    /** The shared body of `createFile` and `createDirectory`. */
    method CreateNode(path: string, kind: Kind, content: string, now: nat) returns (ok: bool)
      requires Valid()
      modifies this
      ensures Valid()
      ensures currentPath == old(currentPath)
      ensures ok == CreateAt(old(root), currentPath, path, kind, content, now).Some?
      ensures root == if ok then CreateAt(old(root), currentPath, path, kind, content, now).value else old(root)
    {
      var normalized := if StartsWith(path, "/") then path else currentPath + "/" + path;
      var parts := Segments(normalized);
      assert parts == PathParts(currentPath, path);
      if |parts| == 0 {
        return false;
      }
      var name := parts[|parts| - 1];
      parts := parts[..|parts| - 1];
      var parentPath := "/" + Join(parts, '/');
      assert parentPath[..1] == "/";
      SegmentsOfRootedJoin(parts);
      var parent := GetNodeAtPath(parentPath);
      if parent.None? || parent.value.kind != Directory {
        return false;
      }
      if HasChild(parent.value, name) {
        return false;
      }
      CreateKeepsBlog(root, currentPath, path, kind, content, now);
      root := Rebuild(root, parts, Insert(name, NewNode(kind, name, content, now)), now);
      return true;
    }

    /** `createFile`: a new file holding `content` (empty by default). */
    method CreateFile(path: string, now: nat, content: string := "") returns (ok: bool)
      requires Valid()
      modifies this
      ensures Valid()
      ensures currentPath == old(currentPath)
      ensures ok == CreateAt(old(root), currentPath, path, File, content, now).Some?
      ensures root == if ok then CreateAt(old(root), currentPath, path, File, content, now).value else old(root)
      ensures ok ==> ReadAt(root, currentPath, path) == Some(content)
    {
      ok := CreateNode(path, File, content, now);
      if ok {
        ReadAfterCreate(old(root), currentPath, path, content, now);
      }
    }

    /** `createDirectory`: a new empty directory. */
    method CreateDirectory(path: string, now: nat) returns (ok: bool)
      requires Valid()
      modifies this
      ensures Valid()
      ensures currentPath == old(currentPath)
      ensures ok == CreateAt(old(root), currentPath, path, Directory, "", now).Some?
      ensures root == if ok then CreateAt(old(root), currentPath, path, Directory, "", now).value else old(root)
      ensures ok ==> ListAt(root, currentPath, path) == Some([])
    {
      ok := CreateNode(path, Directory, "", now);
      if ok {
        CreateEffect(old(root), currentPath, path, Directory, "", now);
      }
    }

    /** `deleteNode`: drops the leaf from its parent, except an empty leaf or `/blog`. */
    method DeleteNode(path: string, now: nat) returns (ok: bool)
      requires Valid()
      modifies this
      ensures Valid()
      ensures currentPath == old(currentPath)
      ensures ok == DeleteAt(old(root), currentPath, path, now).Some?
      ensures root == if ok then DeleteAt(old(root), currentPath, path, now).value else old(root)
      ensures ok ==> NodeAt(root, currentPath, path).None?
    {
      var normalized := if StartsWith(path, "/") then path else currentPath + "/" + path;
      var parts := Segments(normalized);
      assert parts == PathParts(currentPath, path);
      if |parts| == 0 {
        return false;
      }
      var name := parts[|parts| - 1];
      parts := parts[..|parts| - 1];
      if |parts| == 0 && name == "blog" {
        return false;
      }
      DeleteKeepsBlog(root, currentPath, path, now);
      DeleteEffect(root, currentPath, path, now);
      root := Rebuild(root, parts, Remove(name), now);
      return true;
    }

    /** `writeFile`: replaces the content of an existing file; reports success whenever the path has a leaf. */
    method WriteFile(path: string, content: string, now: nat) returns (ok: bool)
      requires Valid()
      modifies this
      ensures Valid()
      ensures currentPath == old(currentPath)
      ensures ok == WriteAt(old(root), currentPath, path, content, now).Some?
      ensures root == if ok then WriteAt(old(root), currentPath, path, content, now).value else old(root)
    {
      var normalized := if StartsWith(path, "/") then path else currentPath + "/" + path;
      var parts := Segments(normalized);
      assert parts == PathParts(currentPath, path);
      if |parts| == 0 {
        return false;
      }
      var name := parts[|parts| - 1];
      parts := parts[..|parts| - 1];
      WriteKeepsBlog(root, currentPath, path, content, now);
      root := Rebuild(root, parts, Write(name, content), now);
      return true;
    }

    /** `readFile` */
    method ReadFile(path: string) returns (r: Option<string>)
      ensures r == ReadAt(root, currentPath, path)
    {
      var node := GetNodeAtPath(path);
      if node.None? || node.value.kind != File {
        return None;
      }
      return Some(node.value.content.GetOr(""));
    }

    /** `listDirectory` */
    method ListDirectory(path: string) returns (r: Option<seq<Node>>)
      ensures r == ListAt(root, currentPath, path)
    {
      var node := GetNodeAtPath(path);
      if node.None? || node.value.kind != Directory || node.value.children.None? {
        return None;
      }
      return Some(ListingOf(node.value.children.value));
    }

    /** `resetFileSystem`: back to the default tree, at `/`. */
    method ResetFileSystem(now: nat)
      modifies this
      ensures Valid()
      ensures root == DefaultRoot(now) && currentPath == "/"
    {
      root := DefaultRoot(now);
      currentPath := "/";
    }
  }
}
