/**
 * Seeding `/blog` with the bundled posts at start-up: each post is created as
 * a file under `/blog` unless something already sits at its path, so a tree
 * restored from an earlier session keeps its (possibly edited) posts.
 */
module BlogLoader {
  import opened Wrappers
  import opened Text
  import opened FileTree
  import opened FileSystemStore

  /** One bundled post: its file name under `/blog` and its markdown. */
  datatype Post = Post(name: string, content: string)

  /** The bundled posts, in order; their markdown is supplied from outside. */
  function BlogPosts(welcome: string, cleanArchitecture: string, typescriptTips: string): (r: seq<Post>)
    ensures |r| == 3
    ensures r[0].content == welcome && r[1].content == cleanArchitecture && r[2].content == typescriptTips
    ensures NamesAreSegments(r) && DistinctNames(r)
  {
    var r := [Post("welcome.md", welcome), Post("clean-architecture.md", cleanArchitecture),
              Post("typescript-tips.md", typescriptTips)];
    BundledNameIsSegment("welcome.md");
    BundledNameIsSegment("clean-architecture.md");
    BundledNameIsSegment("typescript-tips.md");
    assert r[0].name[0] != r[1].name[0] && r[1].name[0] != r[2].name[0] && r[0].name[0] != r[2].name[0];
    r
  }

  /** A name of letters, digits, `-` and `.` is a path segment. */
  lemma BundledNameIsSegment(name: string)
    requires name != [] && forall i :: 0 <= i < |name| ==> name[i] == '-' || name[i] == '.' || 'a' <= name[i] <= 'z'
    ensures IsSegment(name)
  {
  }

  predicate NamesAreSegments(posts: seq<Post>) {
    forall i :: 0 <= i < |posts| ==> IsSegment(posts[i].name)
  }

  predicate DistinctNames(posts: seq<Post>) {
    forall i, j :: 0 <= i < j < |posts| ==> posts[i].name != posts[j].name
  }

  /** `/blog/${name}` */
  function PostPath(name: string): string {
    "/blog/" + name
  }

  /** The store walks `/blog/name` as the two segments `blog` and `name`. */
  lemma PostPathParts(cwd: string, name: string)
    requires IsSegment(name)
    ensures PathParts(cwd, PostPath(name)) == ["blog", name]
  {
    assert PostPath(name)[..1] == "/";
    assert Join(["blog", name], '/') == "blog" + ['/'] + name;
    assert "/" + Join(["blog", name], '/') == PostPath(name);
    assert IsSegment("blog");
    SegmentsOfRootedJoin(["blog", name]);
  }

  /** One step of the `forEach`: create the post unless something is at its path. */
  function SeedPost(root: Node, cwd: string, p: Post, now: nat): Node {
    if NodeAt(root, cwd, PostPath(p.name)).Some? then root
    else
      match CreateAt(root, cwd, PostPath(p.name), File, p.content, now)
      case None => root
      case Some(r) => r
  }

  /** The `forEach` over the posts, in order. */
  function SeedPosts(root: Node, cwd: string, posts: seq<Post>, now: nat): Node
    decreases |posts|
  {
    if posts == [] then root
    else SeedPost(SeedPosts(root, cwd, posts[..|posts| - 1], now), cwd, posts[|posts| - 1], now)
  }

  /** `loadBlogPosts`: nothing happens unless `/blog` resolves to a node with children. */
  function Loaded(root: Node, cwd: string, posts: seq<Post>, now: nat): Node {
    var blogDir := NodeAt(root, cwd, "/blog");
    if blogDir.None? || blogDir.value.children.None? then root
    else SeedPosts(root, cwd, posts, now)
  }

  /** `loadBlogPosts`, on the store. */
  method LoadBlogPosts(fs: FileSystem, posts: seq<Post>, now: nat)
    requires fs.Valid()
    modifies fs
    ensures fs.Valid() && fs.currentPath == old(fs.currentPath)
    ensures fs.root == Loaded(old(fs.root), fs.currentPath, posts, now)
  {
    var blogDir := fs.GetNodeAtPath("/blog");
    if blogDir.None? || blogDir.value.children.None? {
      return;
    }
    for i := 0 to |posts|
      invariant fs.Valid() && fs.currentPath == old(fs.currentPath)
      invariant fs.root == SeedPosts(old(fs.root), fs.currentPath, posts[..i], now)
    {
      SeedPostsSnoc(old(fs.root), fs.currentPath, posts, i, now);
      var existingPost := fs.GetNodeAtPath(PostPath(posts[i].name));
      if existingPost.None? {
        var created := fs.CreateFile(PostPath(posts[i].name), now, posts[i].content);
      }
    }
    assert posts[..|posts|] == posts;
  }

  /** The loop's step: seeding one more post of the list. */
  lemma SeedPostsSnoc(root: Node, cwd: string, posts: seq<Post>, i: nat, now: nat)
    requires i < |posts|
    ensures SeedPosts(root, cwd, posts[..i + 1], now) == SeedPost(SeedPosts(root, cwd, posts[..i], now), cwd, posts[i], now)
  {
    assert posts[..i + 1][..i] == posts[..i];
  }

  /**
   * One step: a missing post is created with its content, an existing node at
   * its path is left as it is, the other posts' paths are untouched, and
   * `/blog` stays.
   */
  lemma SeedPostEffect(root: Node, cwd: string, p: Post, now: nat)
    requires HasBlog(root) && IsSegment(p.name)
    ensures var r := SeedPost(root, cwd, p, now);
      && HasBlog(r)
      && NodeAt(r, cwd, PostPath(p.name)) ==
           (if NodeAt(root, cwd, PostPath(p.name)).Some? then NodeAt(root, cwd, PostPath(p.name))
            else Some(NewNode(File, p.name, p.content, now)))
      && forall m :: IsSegment(m) && m != p.name ==> NodeAt(r, cwd, PostPath(m)) == NodeAt(root, cwd, PostPath(m))
  {
    var path := PostPath(p.name);
    PostPathParts(cwd, p.name);
    if NodeAt(root, cwd, path).None? {
      assert Lookup(root, ["blog"]) == Some(root.children.value["blog"]) by {
        LookupStep(root, [], "blog");
        assert [] + ["blog"] == ["blog"];
      }
      LookupStep(root, ["blog"], p.name);
      assert ["blog"] + [p.name] == ["blog", p.name];
      assert Locate(cwd, path).value.parent == ["blog"];
      assert CreateAt(root, cwd, path, File, p.content, now).Some?;
      CreateEffect(root, cwd, path, File, p.content, now);
      CreateKeepsBlog(root, cwd, path, File, p.content, now);
      var r := CreateAt(root, cwd, path, File, p.content, now).value;
      forall m | IsSegment(m) && m != p.name
        ensures NodeAt(r, cwd, PostPath(m)) == NodeAt(root, cwd, PostPath(m))
      {
        PostPathParts(cwd, m);
        assert ["blog", m][1..] == [m] && ["blog", p.name][1..] == [p.name];
        assert Diverges(["blog", m], ["blog", p.name]);
      }
    }
  }

  /** Each post's path holds what was there before, or else the new file with the post's content. */
  predicate EachSeeded(root: Node, r: Node, cwd: string, posts: seq<Post>, now: nat) {
    forall i :: 0 <= i < |posts| ==>
      NodeAt(r, cwd, PostPath(posts[i].name)) ==
        (if NodeAt(root, cwd, PostPath(posts[i].name)).Some? then NodeAt(root, cwd, PostPath(posts[i].name))
         else Some(NewNode(File, posts[i].name, posts[i].content, now)))
  }

  /** A path under `/blog` that names none of the posts resolves as before. */
  ghost predicate OthersUntouched(root: Node, r: Node, cwd: string, posts: seq<Post>) {
    forall m :: IsSegment(m) && (forall i :: 0 <= i < |posts| ==> posts[i].name != m) ==>
      NodeAt(r, cwd, PostPath(m)) == NodeAt(root, cwd, PostPath(m))
  }

  /** Every path that does not start at `/blog` (the root itself aside) resolves as before. */
  ghost predicate OutsideBlogUntouched(root: Node, r: Node) {
    forall q :: q != [] && q[0] != "blog" ==> Lookup(r, q) == Lookup(root, q)
  }

  /** One step of the `forEach` touches nothing outside `/blog`. */
  lemma SeedPostOutside(root: Node, cwd: string, p: Post, now: nat)
    requires HasBlog(root) && IsSegment(p.name)
    ensures OutsideBlogUntouched(root, SeedPost(root, cwd, p, now))
  {
    var path := PostPath(p.name);
    PostPathParts(cwd, p.name);
    if NodeAt(root, cwd, path).None? {
      assert Lookup(root, ["blog"]) == Some(root.children.value["blog"]) by {
        LookupStep(root, [], "blog");
        assert [] + ["blog"] == ["blog"];
      }
      LookupStep(root, ["blog"], p.name);
      assert ["blog"] + [p.name] == ["blog", p.name];
      assert Locate(cwd, path).value.parent == ["blog"];
      assert CreateAt(root, cwd, path, File, p.content, now).Some?;
      CreateEffect(root, cwd, path, File, p.content, now);
      forall q | q != [] && q[0] != "blog"
        ensures Diverges(q, ["blog", p.name])
      {
      }
    }
  }

  /** The whole `forEach` touches nothing outside `/blog`. */
  lemma {:induction false} SeedPostsOutside(root: Node, cwd: string, posts: seq<Post>, now: nat)
    requires HasBlog(root) && NamesAreSegments(posts)
    ensures OutsideBlogUntouched(root, SeedPosts(root, cwd, posts, now))
    decreases |posts|
  {
    if posts != [] {
      var init := posts[..|posts| - 1];
      assert forall i :: 0 <= i < |init| ==> init[i] == posts[i];
      SeedPostsOutside(root, cwd, init, now);
      SeedPostsKeepBlog(root, cwd, init, now);
      SeedPostOutside(SeedPosts(root, cwd, init, now), cwd, posts[|posts| - 1], now);
    }
  }

  /**
   * Seeding distinct posts: each post's path holds what was there before, or
   * else the new file with the post's content; any other post path is untouched.
   */
  lemma SeedPostsEffect(root: Node, cwd: string, posts: seq<Post>, now: nat)
    requires HasBlog(root) && NamesAreSegments(posts) && DistinctNames(posts)
    ensures var r := SeedPosts(root, cwd, posts, now);
      HasBlog(r) && EachSeeded(root, r, cwd, posts, now) && OthersUntouched(root, r, cwd, posts)
  {
    SeedPostsKeepBlog(root, cwd, posts, now);
    SeedPostsEach(root, cwd, posts, now);
    SeedPostsOthers(root, cwd, posts, now);
  }

  lemma {:induction false} SeedPostsKeepBlog(root: Node, cwd: string, posts: seq<Post>, now: nat)
    requires HasBlog(root) && NamesAreSegments(posts)
    ensures HasBlog(SeedPosts(root, cwd, posts, now))
    decreases |posts|
  {
    if posts != [] {
      var init := posts[..|posts| - 1];
      assert forall i :: 0 <= i < |init| ==> init[i] == posts[i];
      SeedPostsKeepBlog(root, cwd, init, now);
      SeedPostEffect(SeedPosts(root, cwd, init, now), cwd, posts[|posts| - 1], now);
    }
  }

  lemma {:induction false} SeedPostsOthers(root: Node, cwd: string, posts: seq<Post>, now: nat)
    requires HasBlog(root) && NamesAreSegments(posts)
    ensures OthersUntouched(root, SeedPosts(root, cwd, posts, now), cwd, posts)
    decreases |posts|
  {
    if posts != [] {
      var init := posts[..|posts| - 1];
      var p := posts[|posts| - 1];
      assert forall i :: 0 <= i < |init| ==> init[i] == posts[i];
      SeedPostsOthers(root, cwd, init, now);
      SeedPostsKeepBlog(root, cwd, init, now);
      var cur := SeedPosts(root, cwd, init, now);
      SeedPostEffect(cur, cwd, p, now);
      forall m | IsSegment(m) && (forall i :: 0 <= i < |posts| ==> posts[i].name != m)
        ensures NodeAt(SeedPost(cur, cwd, p, now), cwd, PostPath(m)) == NodeAt(root, cwd, PostPath(m))
      {
        assert forall i :: 0 <= i < |init| ==> init[i].name != m;
        assert p.name != m;
      }
    }
  }

  lemma {:induction false} SeedPostsEach(root: Node, cwd: string, posts: seq<Post>, now: nat)
    requires HasBlog(root) && NamesAreSegments(posts) && DistinctNames(posts)
    ensures EachSeeded(root, SeedPosts(root, cwd, posts, now), cwd, posts, now)
    decreases |posts|
  {
    if posts != [] {
      var init := posts[..|posts| - 1];
      var p := posts[|posts| - 1];
      assert forall i :: 0 <= i < |init| ==> init[i] == posts[i];
      SeedPostsEach(root, cwd, init, now);
      SeedPostsKeepBlog(root, cwd, init, now);
      SeedPostsOthers(root, cwd, init, now);
      var cur := SeedPosts(root, cwd, init, now);
      SeedPostEffect(cur, cwd, p, now);
      var r := SeedPost(cur, cwd, p, now);
      assert forall j :: 0 <= j < |init| ==> init[j].name != p.name;
      forall i | 0 <= i < |init|
        ensures NodeAt(r, cwd, PostPath(init[i].name)) == NodeAt(cur, cwd, PostPath(init[i].name))
      {
        assert init[i] == posts[i] && IsSegment(posts[i].name);
      }
      InitLast(posts);
      EachStep(root, cur, r, cwd, init, p, now);
    }
  }

  lemma InitLast(posts: seq<Post>)
    requires posts != []
    ensures posts[..|posts| - 1] + [posts[|posts| - 1]] == posts
  {
  }

  /** Adding one post keeps the others in place and seeds the new one. */
  lemma EachStep(root: Node, cur: Node, r: Node, cwd: string, init: seq<Post>, p: Post, now: nat)
    requires EachSeeded(root, cur, cwd, init, now)
    requires NodeAt(cur, cwd, PostPath(p.name)) == NodeAt(root, cwd, PostPath(p.name))
    requires NodeAt(r, cwd, PostPath(p.name)) ==
      (if NodeAt(cur, cwd, PostPath(p.name)).Some? then NodeAt(cur, cwd, PostPath(p.name))
       else Some(NewNode(File, p.name, p.content, now)))
    requires forall i :: 0 <= i < |init| ==>
      NodeAt(r, cwd, PostPath(init[i].name)) == NodeAt(cur, cwd, PostPath(init[i].name))
    ensures EachSeeded(root, r, cwd, init + [p], now)
  {
    var posts := init + [p];
    forall i | 0 <= i < |posts|
      ensures NodeAt(r, cwd, PostPath(posts[i].name)) ==
        (if NodeAt(root, cwd, PostPath(posts[i].name)).Some? then NodeAt(root, cwd, PostPath(posts[i].name))
         else Some(NewNode(File, posts[i].name, posts[i].content, now)))
    {
      if i < |init| {
        assert posts[i] == init[i];
      }
    }
  }

  /** When every post's path already resolves, seeding changes nothing. */
  lemma {:induction false} SeedPostsPresent(root: Node, cwd: string, posts: seq<Post>, now: nat)
    requires forall i :: 0 <= i < |posts| ==> NodeAt(root, cwd, PostPath(posts[i].name)).Some?
    ensures SeedPosts(root, cwd, posts, now) == root
    decreases |posts|
  {
    if posts != [] {
      var init := posts[..|posts| - 1];
      assert forall i :: 0 <= i < |init| ==> init[i] == posts[i];
      SeedPostsPresent(root, cwd, init, now);
    }
  }

  /** On a tree whose `/blog` has children, loading is the `forEach`. */
  lemma LoadedSeeds(root: Node, cwd: string, posts: seq<Post>, now: nat)
    requires HasBlog(root) && root.children.value["blog"].children.Some?
    ensures Loaded(root, cwd, posts, now) == SeedPosts(root, cwd, posts, now)
  {
    assert "/blog"[..1] == "/";
    assert "/" + Join(["blog"], '/') == "/blog";
    assert IsSegment("blog");
    SegmentsOfRootedJoin(["blog"]);
    assert ["blog"][1..] == [];
    assert NodeAt(root, cwd, "/blog") == Some(root.children.value["blog"]);
  }

  /**
   * `loadBlogPosts` on a valid tree whose `/blog` has children: never
   * overwrites a post that is already there and creates each missing one
   * with its content.
   */
  lemma LoadedEffect(root: Node, cwd: string, posts: seq<Post>, now: nat)
    requires HasBlog(root) && root.children.value["blog"].children.Some?
    requires NamesAreSegments(posts) && DistinctNames(posts)
    ensures var r := Loaded(root, cwd, posts, now);
      && HasBlog(r)
      && forall i :: 0 <= i < |posts| ==>
           NodeAt(r, cwd, PostPath(posts[i].name)) ==
             (if NodeAt(root, cwd, PostPath(posts[i].name)).Some? then NodeAt(root, cwd, PostPath(posts[i].name))
              else Some(NewNode(File, posts[i].name, posts[i].content, now)))
  {
    LoadedSeeds(root, cwd, posts, now);
    SeedPostsEffect(root, cwd, posts, now);
  }

  /**
   * Loading touches nothing but the posts: any other name under `/blog`, and
   * any path outside `/blog`, resolves as before.
   */
  lemma LoadedFrame(root: Node, cwd: string, posts: seq<Post>, now: nat)
    requires HasBlog(root) && root.children.value["blog"].children.Some?
    requires NamesAreSegments(posts) && DistinctNames(posts)
    ensures var r := Loaded(root, cwd, posts, now);
      OthersUntouched(root, r, cwd, posts) && OutsideBlogUntouched(root, r)
  {
    LoadedSeeds(root, cwd, posts, now);
    SeedPostsEffect(root, cwd, posts, now);
    SeedPostsOutside(root, cwd, posts, now);
  }

  /** Loading a second time changes nothing. */
  lemma LoadedIdempotent(root: Node, cwd: string, posts: seq<Post>, now: nat, now': nat)
    requires HasBlog(root) && NamesAreSegments(posts) && DistinctNames(posts)
    ensures Loaded(Loaded(root, cwd, posts, now), cwd, posts, now') == Loaded(root, cwd, posts, now)
  {
    var blogDir := NodeAt(root, cwd, "/blog");
    if blogDir.Some? && blogDir.value.children.Some? {
      SeedPostsEffect(root, cwd, posts, now);
      SeedPostsPresent(SeedPosts(root, cwd, posts, now), cwd, posts, now');
    }
  }

  /** On the default tree every bundled post reads back as its markdown. */
  lemma FirstLoad(now: nat, welcome: string, cleanArchitecture: string, typescriptTips: string, now': nat)
    ensures var posts := BlogPosts(welcome, cleanArchitecture, typescriptTips);
      var r := Loaded(DefaultRoot(now), "/", posts, now');
      forall i :: 0 <= i < 3 ==> ReadAt(r, "/", PostPath(posts[i].name)) == Some(posts[i].content)
  {
    var root := DefaultRoot(now);
    var posts := BlogPosts(welcome, cleanArchitecture, typescriptTips);
    LoadedEffect(root, "/", posts, now');
    forall i | 0 <= i < 3 ensures NodeAt(root, "/", PostPath(posts[i].name)).None? {
      PostPathParts("/", posts[i].name);
      LookupStep(root, ["blog"], posts[i].name);
      assert ["blog"] + [posts[i].name] == ["blog", posts[i].name];
      assert Lookup(root, ["blog"]) == Some(NewNode(Directory, "blog", "", now));
    }
  }
}
