/**
 * What the command interpreter promises: how `resolvePath` reads `.`, `..`
 * and `../` paths and how that differs from the store's own reading of a
 * path; how a line is split into a verb and its arguments; the error paths
 * that leave everything as it was; the shape of the output of `ls` and
 * `open`; and that a redirected `echo` is read back by `cat`.
 */
module CommandProperties {
  import opened Wrappers
  import opened Text
  import opened FileTree
  import opened FileSystemStore
  import opened CommandHandler

  /** A token of `split(/\s+/)`: non-empty and without whitespace. */
  predicate IsWord(w: string) {
    w != "" && Free(w, IsSpace)
  }

  predicate AreWords(ws: seq<string>) {
    forall i :: 0 <= i < |ws| ==> IsWord(ws[i])
  }

  lemma SlashFirst(x: string)
    ensures StartsWith("/" + x, "/")
  {
    assert ("/" + x)[..1] == "/";
  }

  lemma SegmentsOfRoot()
    ensures Segments("/") == [] && Segments("") == []
  {
    SegmentsOfRootedJoin([]);
    assert "/" + Join([], '/') == "/";
    assert SplitBy("", IsSlash) == [""];
  }

  // ---------------------------------------------------------------------------
  // resolvePath
  // ---------------------------------------------------------------------------

  /** From an absolute working directory every resolved path is absolute. */
  lemma ResolvedIsAbsolute(cwd: string, t: string)
    requires StartsWith(cwd, "/")
    ensures StartsWith(Resolved(cwd, t), "/")
  {
    if StartsWith(t, "/") || t == "." {
    } else if t == ".." {
      SlashFirst(Join(Pop(Segments(cwd)), '/'));
    } else if StartsWith(t, "../") {
      SlashFirst(Join(Navigate(Segments(cwd), DropDots(SplitBy(t, IsSlash))), '/'));
    } else if cwd == "/" {
      SlashFirst(t);
    } else {
      assert (cwd + "/" + t)[..1] == cwd[..1];
    }
  }

  /**
   * `..` means the parent to `resolvePath`, but the store reads it as a child
   * literally named `..` below the working directory.
   */
  lemma ParentInBothRegimes(cwd: string)
    ensures Segments(Resolved(cwd, "..")) == Pop(Segments(cwd))
    ensures PathParts(cwd, "..") == Segments(cwd) + [".."]
  {
    var segs := Segments(cwd);
    var up := Pop(segs);
    assert forall i :: 0 <= i < |up| ==> up[i] == segs[i];
    SegmentsOfRootedJoin(up);
    assert ".."[..1] == ".";
    SegmentsOfConcat(cwd, "..");
    SegmentsOfSegment("..");
  }

  /** `../name` is the parent's child `name`. */
  lemma ResolvedUpThen(cwd: string, name: string)
    requires IsSegment(name) && name != "." && name != ".."
    ensures Resolved(cwd, "../" + name) == "/" + Join(Pop(Segments(cwd)) + [name], '/')
    ensures Segments(Resolved(cwd, "../" + name)) == Pop(Segments(cwd)) + [name]
  {
    var t := "../" + name;
    var segs := Segments(cwd);
    assert t[..1] == "." && t[..3] == "../" && |t| > 3;
    UpThenPieces(name);
    UpThenSteps(segs, name);
    var up := Pop(segs) + [name];
    assert forall i :: 0 <= i < |up| ==> IsSegment(up[i]);
    SegmentsOfRootedJoin(up);
  }

  /** `"../name".split('/').filter((p) => p !== '.')` */
  lemma UpThenPieces(name: string)
    requires IsSegment(name) && name != "."
    ensures DropDots(SplitBy("../" + name, IsSlash)) == ["..", name]
  {
    assert "../" + name == ".." + ['/'] + name;
    SplitAtSeparator("..", '/', name, IsSlash);
    SplitFreeWhole("..", IsSlash);
    SplitFreeWhole(name, IsSlash);
    var pieces := ["..", name];
    assert SplitBy("../" + name, IsSlash) == pieces;
    assert pieces[1..] == [name] && [name][1..] == [];
    assert DropDots([name]) == [name] + DropDots([]);
    assert DropDots(pieces) == [".."] + DropDots([name]);
  }

  /** The loop over `..` then `name`: pop, then push. */
  lemma UpThenSteps(segs: seq<string>, name: string)
    requires name != ".."
    ensures Navigate(segs, ["..", name]) == Pop(segs) + [name]
  {
    assert ["..", name][..1] == [".."] && [".."][..0] == [];
    assert Navigate(segs, [".."]) == Pop(segs);
  }

  /** Any other relative argument names the same segments in both regimes. */
  lemma ResolvedPlain(cwd: string, t: string)
    requires !StartsWith(t, "/") && t != "." && t != ".." && !StartsWith(t, "../")
    ensures Segments(Resolved(cwd, t)) == PathParts(cwd, t)
  {
    if cwd == "/" {
      SegmentsOfRoot();
      SegmentsOfConcat("/", t);
      SegmentsOfConcat("", t);
      assert "" + "/" + t == "/" + t;
    }
  }

  /** Worked case: `..` from `/blog` goes to `/`. */
  lemma ResolvedParentExample()
    ensures Resolved("/blog", "..") == "/"
  {
    SegmentsOfRootedJoin(["blog"]);
    assert "/" + Join(["blog"], '/') == "/blog";
  }

  /** Worked case: `../blog` from `/x` goes to `/blog`. */
  lemma ResolvedSiblingExample()
    ensures Resolved("/x", "../blog") == "/blog"
    ensures Segments(Resolved("/x", "../blog")) == ["blog"]
  {
    assert IsSegment("x") && IsSegment("blog");
    assert "/" + Join(["x"], '/') == "/x";
    SegmentsOfRootedJoin(["x"]);
    assert Pop(["x"]) + ["blog"] == ["blog"];
    assert "../" + "blog" == "../blog";
    ResolvedUpThen("/x", "blog");
    assert Join(["blog"], '/') == "blog";
  }

  /** Worked case: `../blog` from `/blog/x` goes to `/blog/blog`: `..` pops `x` only. */
  lemma ResolvedNestedExample()
    ensures Resolved("/blog/x", "../blog") == "/blog/blog"
    ensures Segments(Resolved("/blog/x", "../blog")) == ["blog", "blog"]
  {
    assert IsSegment("x") && IsSegment("blog");
    assert Join(["x"], '/') == "x";
    assert "/" + Join(["blog", "x"], '/') == "/blog/x";
    SegmentsOfRootedJoin(["blog", "x"]);
    assert Pop(["blog", "x"]) + ["blog"] == ["blog", "blog"];
    assert "../" + "blog" == "../blog";
    ResolvedUpThen("/blog/x", "blog");
    assert Join(["blog"], '/') == "blog";
    assert Join(["blog", "blog"], '/') == "blog/blog";
  }

  // ---------------------------------------------------------------------------
  // reading a line
  // ---------------------------------------------------------------------------

  /** A blank or whitespace-only line prints nothing, fails nothing and changes nothing. */
  lemma BlankLine(root: Node, cwd: string, line: string, rx: Regex, now: nat)
    requires AllSpace(line)
    ensures Interpret(root, cwd, line, rx, now) == Outcome(Ok(""), root, cwd, NoEffect)
  {
    TrimPadded(line, "", "");
    assert line + "" + "" == line;
  }

  /** The verb is the first word lower-cased; the arguments are the other words. */
  lemma InterpretWords(root: Node, cwd: string, ws: seq<string>, rx: Regex, now: nat)
    requires |ws| >= 1 && AreWords(ws)
    ensures Interpret(root, cwd, Join(ws, ' '), rx, now) == Dispatch(root, cwd, Lower(ws[0]), ws[1..], rx, now)
  {
    LineOfWords(ws);
  }

  /** A line made of a lower-case verb and argument words dispatches on that verb and those words. */
  lemma InterpretVerb(root: Node, cwd: string, verb: string, args: seq<string>, rx: Regex, now: nat)
    requires verb != "" && (forall k :: 0 <= k < |verb| ==> 'a' <= verb[k] <= 'z') && AreWords(args)
    ensures Interpret(root, cwd, Join([verb] + args, ' '), rx, now) == Dispatch(root, cwd, verb, args, rx, now)
  {
    assert Lower(verb) == verb;
    assert ([verb] + args)[0] == verb && ([verb] + args)[1..] == args;
    InterpretWords(root, cwd, [verb] + args, rx, now);
  }

  /** Words joined by single spaces are a non-blank line that trims to itself and splits back. */
  lemma LineOfWords(ws: seq<string>)
    requires |ws| >= 1 && AreWords(ws)
    ensures var line := Join(ws, ' '); line != "" && Trim(line) == line && Words(line) == ws
  {
    JoinTrimmed(ws);
    TrimPadded("", Join(ws, ' '), "");
    assert "" + Join(ws, ' ') + "" == Join(ws, ' ');
    WordsOfJoin(ws);
  }

  const KnownVerbs: set<string> :=
    {"help", "clear", "pwd", "cd", "ls", "touch", "mkdir", "echo", "cat", "grep", "rm", "open", "whoami"}

  /**
   * Any other verb, in any letter case and with any spacing around and between
   * the words, is reported lower-cased as not found, and nothing changes.
   */
  lemma UnknownVerb(root: Node, cwd: string, line: string, verb: string, args: seq<string>, rx: Regex, now: nat)
    requires Trim(line) != "" && Words(Trim(line)) == [verb] + args && Lower(verb) !in KnownVerbs
    ensures Interpret(root, cwd, line, rx, now) ==
      Outcome(Fail(Lower(verb) + ": command not found. Type 'help' for available commands."), root, cwd, NoEffect)
  {
    assert ([verb] + args)[1..] == args;
    DispatchUnknown(root, cwd, Lower(verb), args, rx, now);
  }

  lemma DispatchUnknown(root: Node, cwd: string, cmd: string, args: seq<string>, rx: Regex, now: nat)
    requires cmd !in KnownVerbs
    ensures Dispatch(root, cwd, cmd, args, rx, now) == Outcome(Fail(NotFound(cmd)), root, cwd, NoEffect)
  {
  }

  const MissingOperandText: map<string, string> := map[
    "touch" := "touch: missing file operand",
    "mkdir" := "mkdir: missing directory operand",
    "cat" := "cat: missing file operand",
    "grep" := "grep: missing pattern or file operand",
    "rm" := "rm: missing file operand",
    "open" := "open: missing file operand"]

  /**
   * A verb that needs an operand, alone on a line with any padding, reports its
   * fixed error and changes nothing.
   */
  lemma MissingOperand(root: Node, cwd: string, line: string, verb: string, rx: Regex, now: nat)
    requires Trim(line) != "" && Words(Trim(line)) == [verb] && Lower(verb) in MissingOperandText
    ensures Interpret(root, cwd, line, rx, now) == Outcome(Fail(MissingOperandText[Lower(verb)]), root, cwd, NoEffect)
  {
    assert [verb][1..] == [];
    DispatchNoOperand(root, cwd, Lower(verb), rx, now);
  }

  lemma DispatchNoOperand(root: Node, cwd: string, cmd: string, rx: Regex, now: nat)
    requires cmd in MissingOperandText
    ensures Dispatch(root, cwd, cmd, [], rx, now) == Outcome(Fail(MissingOperandText[cmd]), root, cwd, NoEffect)
  {
    assert cmd == "touch" || cmd == "mkdir" || cmd == "cat" || cmd == "grep" || cmd == "rm" || cmd == "open";
    if cmd == "cat" {
      DispatchCat(root, cwd, [], rx, now);
    } else if cmd == "grep" {
      DispatchGrep(root, cwd, [], rx, now);
    } else if cmd == "rm" {
      DispatchRm(root, cwd, [], rx, now);
    } else if cmd == "open" {
      DispatchOpen(root, cwd, [], rx, now);
    }
  }

  /** A verb the first part of the `switch` does not handle. */
  predicate LaterVerb(cmd: string) {
    cmd != "help" && cmd != "clear" && cmd != "pwd" && cmd != "cd" && cmd != "ls" && cmd != "touch" && cmd != "mkdir"
  }

  /** A verb the file part of the `switch` does not handle either. */
  predicate SessionVerb(cmd: string) {
    LaterVerb(cmd) && cmd != "echo" && cmd != "cat" && cmd != "grep" && cmd != "rm"
  }

  lemma LaterVerbs()
    ensures LaterVerb("echo") && LaterVerb("cat") && LaterVerb("grep") && LaterVerb("rm")
    ensures SessionVerb("open")
  {
  }

  lemma DispatchLater(root: Node, cwd: string, cmd: string, args: seq<string>, rx: Regex, now: nat)
    requires LaterVerb(cmd)
    ensures Dispatch(root, cwd, cmd, args, rx, now) == DispatchRest(root, cwd, cmd, args, rx, now)
  {
  }

  lemma DispatchCat(root: Node, cwd: string, args: seq<string>, rx: Regex, now: nat)
    ensures Dispatch(root, cwd, "cat", args, rx, now) == Unchanged(root, cwd, Cat(root, cwd, args))
  {
    LaterVerbs();
    DispatchLater(root, cwd, "cat", args, rx, now);
  }

  lemma DispatchGrep(root: Node, cwd: string, args: seq<string>, rx: Regex, now: nat)
    ensures Dispatch(root, cwd, "grep", args, rx, now) == Unchanged(root, cwd, Grep(root, cwd, args, rx))
  {
    LaterVerbs();
    DispatchLater(root, cwd, "grep", args, rx, now);
  }

  lemma DispatchRm(root: Node, cwd: string, args: seq<string>, rx: Regex, now: nat)
    ensures Dispatch(root, cwd, "rm", args, rx, now) == Rm(root, cwd, args, now)
  {
    LaterVerbs();
    DispatchLater(root, cwd, "rm", args, rx, now);
  }

  lemma DispatchOpen(root: Node, cwd: string, args: seq<string>, rx: Regex, now: nat)
    ensures Dispatch(root, cwd, "open", args, rx, now) == Open(root, cwd, args)
  {
    LaterVerbs();
    DispatchLater(root, cwd, "open", args, rx, now);
    DispatchSessionOf(root, cwd, "open", args, rx, now);
  }

  lemma DispatchSessionOf(root: Node, cwd: string, cmd: string, args: seq<string>, rx: Regex, now: nat)
    requires SessionVerb(cmd)
    ensures DispatchRest(root, cwd, cmd, args, rx, now) == DispatchSession(root, cwd, cmd, args)
  {
  }

  /** grep with a pattern and no file reports the same error. */
  lemma GrepOneOperand(root: Node, cwd: string, pattern: string, rx: Regex, now: nat)
    requires IsWord(pattern)
    ensures Interpret(root, cwd, "grep " + pattern, rx, now) ==
      Outcome(Fail("grep: missing pattern or file operand"), root, cwd, NoEffect)
  {
    assert Join(["grep"] + [pattern], ' ') == "grep " + pattern;
    InterpretVerb(root, cwd, "grep", [pattern], rx, now);
    DispatchGrep(root, cwd, [pattern], rx, now);
  }

  /**
   * What every verb keeps: an error changes nothing, `/blog` stays a directory
   * under the root, and an absolute working directory stays absolute.
   */
  predicate Keeps(root: Node, cwd: string, o: Outcome) {
    && (o.result.isError ==> o.root == root && o.cwd == cwd && o.effect == NoEffect)
    && (HasBlog(root) ==> HasBlog(o.root))
    && (StartsWith(cwd, "/") ==> StartsWith(o.cwd, "/"))
  }

  lemma CdKeeps(root: Node, cwd: string, args: seq<string>)
    ensures Keeps(root, cwd, Cd(root, cwd, args))
  {
    assert "/"[..1] == "/";
    if args != [] && StartsWith(cwd, "/") {
      ResolvedIsAbsolute(cwd, args[0]);
    }
  }

  lemma CreateVerbsKeep(root: Node, cwd: string, args: seq<string>, now: nat)
    ensures Keeps(root, cwd, Touch(root, cwd, args, now))
    ensures Keeps(root, cwd, Mkdir(root, cwd, args, now))
  {
    if args != [] && HasBlog(root) {
      if CreateAt(root, cwd, args[0], File, "", now).Some? {
        CreateKeepsBlog(root, cwd, args[0], File, "", now);
      }
      if CreateAt(root, cwd, args[0], Directory, "", now).Some? {
        CreateKeepsBlog(root, cwd, args[0], Directory, "", now);
      }
    }
  }

  lemma EchoKeeps(root: Node, cwd: string, args: seq<string>, now: nat)
    ensures Keeps(root, cwd, Echo(root, cwd, args, now))
  {
    var text := Join(args, ' ');
    var o := Echo(root, cwd, args, now);
    match RedirectAt(text)
    case None =>
      assert o.root == root;
    case Some(j) =>
      var content, filename := Trim(text[..j]), Trim(text[j + 1..]);
      RedirectKeeps(root, cwd, content, filename, now);
      assert o == Redirect(root, cwd, content, filename, now);
  }

  lemma RedirectKeeps(root: Node, cwd: string, content: string, filename: string, now: nat)
    ensures Keeps(root, cwd, Redirect(root, cwd, content, filename, now))
  {
    if NodeAt(root, cwd, Resolved(cwd, filename)).Some? {
      WriteKeeps(root, cwd, filename, content, now);
    } else {
      CreateFileKeeps(root, cwd, filename, content, now);
    }
  }

  lemma WriteKeeps(root: Node, cwd: string, filename: string, content: string, now: nat)
    ensures match WriteAt(root, cwd, filename, content, now)
      case None => true
      case Some(r) => HasBlog(root) ==> HasBlog(r)
  {
    if HasBlog(root) && WriteAt(root, cwd, filename, content, now).Some? {
      WriteKeepsBlog(root, cwd, filename, content, now);
    }
  }

  lemma CreateFileKeeps(root: Node, cwd: string, filename: string, content: string, now: nat)
    ensures match CreateAt(root, cwd, filename, File, content, now)
      case None => true
      case Some(r) => HasBlog(root) ==> HasBlog(r)
  {
    if HasBlog(root) && CreateAt(root, cwd, filename, File, content, now).Some? {
      CreateKeepsBlog(root, cwd, filename, File, content, now);
    }
  }

  lemma RmKeeps(root: Node, cwd: string, args: seq<string>, now: nat)
    ensures Keeps(root, cwd, Rm(root, cwd, args, now))
  {
    if args != [] && HasBlog(root) && DeleteAt(root, cwd, args[0], now).Some? {
      DeleteKeepsBlog(root, cwd, args[0], now);
    }
  }

  lemma DispatchRestKeeps(root: Node, cwd: string, cmd: string, args: seq<string>, rx: Regex, now: nat)
    ensures Keeps(root, cwd, DispatchRest(root, cwd, cmd, args, rx, now))
  {
    if cmd == "echo" {
      EchoKeeps(root, cwd, args, now);
    } else if cmd == "rm" {
      RmKeeps(root, cwd, args, now);
    }
  }

  lemma DispatchKeeps(root: Node, cwd: string, cmd: string, args: seq<string>, rx: Regex, now: nat)
    ensures Keeps(root, cwd, Dispatch(root, cwd, cmd, args, rx, now))
  {
    if cmd == "cd" {
      CdKeeps(root, cwd, args);
    } else if cmd == "touch" || cmd == "mkdir" {
      CreateVerbsKeep(root, cwd, args, now);
    } else if LaterVerb(cmd) {
      DispatchLater(root, cwd, cmd, args, rx, now);
      DispatchRestKeeps(root, cwd, cmd, args, rx, now);
    }
  }

  lemma InterpretKeeps(root: Node, cwd: string, line: string, rx: Regex, now: nat)
    ensures Keeps(root, cwd, Interpret(root, cwd, line, rx, now))
  {
    var trimmed := Trim(line);
    if trimmed != "" {
      WordsOfTrimmed(trimmed);
      var parts := Words(trimmed);
      DispatchKeeps(root, cwd, Lower(parts[0]), parts[1..], rx, now);
    }
  }

  /** Every error leaves the tree, the working directory and the terminal session as they were. */
  lemma ErrorsChangeNothing(root: Node, cwd: string, line: string, rx: Regex, now: nat)
    ensures var o := Interpret(root, cwd, line, rx, now);
      o.result.isError ==> o.root == root && o.cwd == cwd && o.effect == NoEffect
  {
    InterpretKeeps(root, cwd, line, rx, now);
  }

  /** No command takes `/blog` away. */
  lemma InterpretKeepsBlog(root: Node, cwd: string, line: string, rx: Regex, now: nat)
    requires HasBlog(root)
    ensures HasBlog(Interpret(root, cwd, line, rx, now).root)
  {
    InterpretKeeps(root, cwd, line, rx, now);
  }

  /** The working directory stays absolute. */
  lemma InterpretKeepsCwdAbsolute(root: Node, cwd: string, line: string, rx: Regex, now: nat)
    requires StartsWith(cwd, "/")
    ensures StartsWith(Interpret(root, cwd, line, rx, now).cwd, "/")
  {
    InterpretKeeps(root, cwd, line, rx, now);
  }

  // ---------------------------------------------------------------------------
  // cd, ls, open
  // ---------------------------------------------------------------------------

  /** `cd` with no argument goes to `/`, whatever the working directory. */
  lemma CdHome(root: Node, cwd: string, rx: Regex, now: nat)
    ensures Interpret(root, cwd, "cd", rx, now) == Outcome(Ok(""), root, "/", NoEffect)
  {
    assert Join(["cd"] + [], ' ') == "cd";
    InterpretVerb(root, cwd, "cd", [], rx, now);
  }

  /** A `cd` that succeeds lands on a directory. */
  lemma CdLandsOnDirectory(root: Node, cwd: string, args: seq<string>)
    requires HasBlog(root) && StartsWith(cwd, "/")
    ensures var o := Cd(root, cwd, args);
      !o.result.isError ==> Lookup(root, Segments(o.cwd)).Some? && Lookup(root, Segments(o.cwd)).value.kind == Directory
  {
    if args == [] {
      SegmentsOfRoot();
    } else {
      ResolvedIsAbsolute(cwd, args[0]);
    }
  }

  /** `ls` prints one line per entry, in listing order, each a marker and the name. */
  lemma LsOutput(root: Node, cwd: string, args: seq<string>, nodes: seq<Node>)
    requires ListAt(root, cwd, LsTarget(cwd, args)) == Some(nodes)
    requires forall i :: 0 <= i < |nodes| ==> Free(nodes[i].name, IsNewline)
    ensures !Ls(root, cwd, args).isError
    ensures nodes == [] ==> Ls(root, cwd, args).output == ""
    ensures nodes != [] ==> SplitBy(Ls(root, cwd, args).output, IsNewline) == EntryLines(nodes)
  {
    if nodes != [] {
      var lines := EntryLines(nodes);
      forall i | 0 <= i < |lines| ensures Free(lines[i], IsNewline) {
        EntryLineFree(nodes[i]);
      }
      SplitJoin(lines, '\n', IsNewline);
    }
  }

  lemma EntryLineFree(n: Node)
    requires Free(n.name, IsNewline)
    ensures Free(Marker(n.kind) + n.name, IsNewline)
  {
    var m := Marker(n.kind);
    var l := m + n.name;
    forall k | 0 <= k < |l| ensures !IsNewline(l[k]) {
      if k >= |m| {
        assert l[k] == n.name[k - |m|];
      }
    }
  }

  /**
   * Opening an existing markdown file shows its content under a title made
   * from the last path segment, which is what the output names.
   */
  lemma OpenMarkdown(root: Node, cwd: string, a: string, content: string)
    requires ReadAt(root, cwd, a) == Some(content) && EndsWith(a, ".md")
    ensures var o := Open(root, cwd, [a]);
      var f := LastPiece(a);
      && o.result == Ok("Opening " + f + "...")
      && o.root == root && o.cwd == cwd
      && o.effect.OpenPanel? && o.effect.content == content
      && Free(f, IsSlash) && EndsWith(a, f) && EndsWith(f, ".md")
      && |o.effect.title| == |f| - 3
      && (forall i :: 0 <= i < |o.effect.title| ==> o.effect.title[i] != '-')
      && var j := IndexOf(f, ".md", 0);
        && j.Some? && j.value <= |f| - 3
        && var g := f[..j.value] + f[j.value + 3..];
          && |o.effect.title| == |g|
          && forall i :: 0 <= i < |g| ==> o.effect.title[i] == (if g[i] == '-' then ' ' else g[i])
  {
    var f := LastPiece(a);
    LastPieceOfMarkdown(a);
    RemoveFirstOfSuffix(f, ".md");
    assert OccursAt(".md", f, |f| - 3);
  }

  /** The last piece of a `.md` path is a slash-free suffix that itself ends in `.md`. */
  lemma LastPieceOfMarkdown(a: string)
    requires EndsWith(a, ".md")
    ensures var f := LastPiece(a); Free(f, IsSlash) && EndsWith(a, f) && EndsWith(f, ".md")
  {
    var pieces := SplitBy(a, IsSlash);
    var last := pieces[|pieces| - 1];
    SplitLast(a, IsSlash);
    assert forall k :: |a| - 3 <= k < |a| ==> a[k] == ".md"[k - (|a| - 3)];
    assert |last| >= 3;
    assert LastPiece(a) == last;
    assert last[|last| - 3..] == a[|a| - 3..];
  }

  // ---------------------------------------------------------------------------
  // echo and cat
  // ---------------------------------------------------------------------------

  /** The redirect of `w > f`, for a word `w` without `>`, splits at that `>`. */
  lemma RedirectOfWords(w: string, f: string)
    requires IsWord(w) && '>' !in w && f != ""
    ensures RedirectAt(w + " > " + f) == Some(|w| + 1)
    ensures Trim((w + " > " + f)[..|w| + 1]) == w
    ensures IsWord(f) ==> Trim((w + " > " + f)[|w| + 2..]) == f
  {
    var text := w + " > " + f;
    RedirectOfWordsAt(w, f);
    assert text[..|w| + 1] == "" + w + " ";
    assert !IsSpace(w[0]) && !IsSpace(w[|w| - 1]);
    TrimPadded("", w, " ");
    if IsWord(f) {
      assert text[|w| + 2..] == " " + f + "";
      assert !IsSpace(f[0]) && !IsSpace(f[|f| - 1]);
      TrimPadded(" ", f, "");
    }
  }

  lemma RedirectOfWordsAt(w: string, f: string)
    requires '>' !in w && f != ""
    ensures RedirectAt(w + " > " + f) == Some(|w| + 1)
  {
    var text := w + " > " + f;
    assert text[|w|] == ' ' && text[|w| + 1] == '>';
    assert forall k :: 0 <= k < |w| ==> text[k] == w[k];
  }

  /** The words of `echo w > f` and of the text after the verb. */
  lemma EchoLine(w: string, f: string)
    ensures Join(["echo", w, ">", f], ' ') == "echo " + w + " > " + f
    ensures Join([w, ">", f], ' ') == w + " > " + f
  {
    assert Join([f], ' ') == f;
    assert Join([">", f], ' ') == ">" + " " + f;
    assert Join([w, ">", f], ' ') == w + " " + (">" + " " + f);
  }

  /** `echo w > f` redirects `w` into `f`. */
  lemma EchoRedirects(root: Node, cwd: string, w: string, f: string, now: nat)
    requires IsWord(w) && '>' !in w && IsWord(f)
    ensures Echo(root, cwd, [w, ">", f], now) == Redirect(root, cwd, w, f, now)
  {
    EchoLine(w, f);
    RedirectOfWords(w, f);
  }

  /** A redirect into a plain name leaves the content in that file, overwriting it or creating it. */
  lemma RedirectWrites(root: Node, cwd: string, w: string, f: string, now: nat)
    requires HasBlog(root) && StartsWith(cwd, "/")
    requires Lookup(root, Segments(cwd)).Some? && Lookup(root, Segments(cwd)).value.kind == Directory
    requires IsSegment(f) && f != "." && f != ".."
    requires NodeAt(root, cwd, f).None? || NodeAt(root, cwd, f).value.kind == File
    ensures var o := Redirect(root, cwd, w, f, now);
      && o.result == Ok("") && o.cwd == cwd && o.effect == NoEffect
      && ReadAt(o.root, cwd, f) == Some(w)
  {
    // the existence check through resolvePath sees the same node as the store
    assert !IsSlash(f[0]) && f[..1] == [f[0]];
    if |f| >= 3 {
      assert !IsSlash(f[2]) && f[..3][2] == f[2];
    }
    ResolvedPlain(cwd, f);
    ResolvedIsAbsolute(cwd, f);
    assert NodeAt(root, cwd, Resolved(cwd, f)) == NodeAt(root, cwd, f);
    if NodeAt(root, cwd, f).Some? {
      ReadAfterWrite(root, cwd, f, w, now);
    } else {
      SegmentsOfConcat(cwd, f);
      SegmentsOfSegment(f);
      LookupStep(root, Segments(cwd), f);
      ReadAfterCreate(root, cwd, f, w, now);
    }
  }

  /** `cat f` prints what the store reads at `f`. */
  lemma CatPrints(root: Node, cwd: string, f: string, rx: Regex, now: nat)
    requires ReadAt(root, cwd, f).Some?
    ensures Dispatch(root, cwd, "cat", [f], rx, now) == Outcome(Ok(ReadAt(root, cwd, f).value), root, cwd, NoEffect)
  {
    DispatchCat(root, cwd, [f], rx, now);
  }

  /** The line `echo w > f` is the redirect of `w` into `f`. */
  lemma EchoLineRedirects(root: Node, cwd: string, w: string, f: string, rx: Regex, now: nat)
    requires IsWord(w) && '>' !in w && IsWord(f)
    ensures Interpret(root, cwd, "echo " + w + " > " + f, rx, now) == Redirect(root, cwd, w, f, now)
  {
    assert IsWord(">");
    EchoLine(w, f);
    assert ["echo"] + [w, ">", f] == ["echo", w, ">", f];
    InterpretVerb(root, cwd, "echo", [w, ">", f], rx, now);
    DispatchEcho(root, cwd, [w, ">", f], rx, now);
    EchoRedirects(root, cwd, w, f, now);
  }

  lemma DispatchEcho(root: Node, cwd: string, args: seq<string>, rx: Regex, now: nat)
    ensures Dispatch(root, cwd, "echo", args, rx, now) == Echo(root, cwd, args, now)
  {
    LaterVerbs();
    DispatchLater(root, cwd, "echo", args, rx, now);
  }

  /** The line `cat f` prints the file `f`. */
  lemma CatLinePrints(root: Node, cwd: string, f: string, rx: Regex, now: nat)
    requires IsWord(f) && ReadAt(root, cwd, f).Some?
    ensures Interpret(root, cwd, "cat " + f, rx, now) == Outcome(Ok(ReadAt(root, cwd, f).value), root, cwd, NoEffect)
  {
    assert Join(["cat"] + [f], ' ') == "cat " + f;
    InterpretVerb(root, cwd, "cat", [f], rx, now);
    CatPrints(root, cwd, f, rx, now);
  }

  /** `echo w > f` followed by `cat f` prints `w`, whether `f` existed as a file or not. */
  lemma EchoThenCat(root: Node, cwd: string, w: string, f: string, rx: Regex, now: nat, now': nat)
    requires HasBlog(root) && StartsWith(cwd, "/")
    requires Lookup(root, Segments(cwd)).Some? && Lookup(root, Segments(cwd)).value.kind == Directory
    requires IsWord(w) && '>' !in w
    requires IsWord(f) && IsSegment(f) && f != "." && f != ".."
    requires NodeAt(root, cwd, f).None? || NodeAt(root, cwd, f).value.kind == File
    ensures var o := Interpret(root, cwd, "echo " + w + " > " + f, rx, now);
      && o.result == Ok("") && o.cwd == cwd && o.effect == NoEffect
      && Interpret(o.root, cwd, "cat " + f, rx, now') == Outcome(Ok(w), o.root, cwd, NoEffect)
  {
    EchoLineRedirects(root, cwd, w, f, rx, now);
    RedirectWrites(root, cwd, w, f, now);
    var o := Redirect(root, cwd, w, f, now);
    CatLinePrints(o.root, cwd, f, rx, now');
  }

  // ---------------------------------------------------------------------------
  // grep and the global flag
  // ---------------------------------------------------------------------------

  /**
   * `grep` on a readable file with a pattern that compiles prints the matching
   * lines, one per output line, and nothing when no line matches.
   */
  lemma GrepOutput(root: Node, cwd: string, pattern: string, file: string, rx: Regex, content: string)
    requires ReadAt(root, cwd, file) == Some(content) && rx.compiles(pattern)
    ensures var r := Grep(root, cwd, [pattern, file], rx);
      var matches := MatchingLines(rx, pattern, SplitBy(content, IsNewline));
      && !r.isError
      && (matches == [] ==> r.output == "")
      && (matches != [] ==> SplitBy(r.output, IsNewline) == matches)
  {
    var lines := SplitBy(content, IsNewline);
    var matches := MatchingLines(rx, pattern, lines);
    if matches != [] {
      forall i | 0 <= i < |matches| ensures Free(matches[i], IsNewline) {
        assert matches[i] in lines;
        var k :| 0 <= k < |lines| && lines[k] == matches[i];
      }
      SplitJoin(matches, '\n', IsNewline);
    }
  }

  /**
   * grep's line filter as written: the pattern is compiled once with the `g`
   * flag, so each `test` starts where the previous match ended (`lastIndex`),
   * fails outright past the end of the line, and a failure resets to 0.
   */
  function StickyLines(rx: Regex, pattern: string, lines: seq<string>, lastIndex: nat): (r: seq<string>)
    ensures |r| <= |lines|
  {
    if lines == [] then []
    else
      var hit := if lastIndex > |lines[0]| then None else rx.search(pattern, lines[0], lastIndex);
      match hit
      case None => StickyLines(rx, pattern, lines[1..], 0)
      case Some(e) => [lines[0]] + StickyLines(rx, pattern, lines[1..], e)
  }

  /** A search for a literal pattern: the end of its first occurrence at or after `from`. */
  function LiteralSearch(pattern: string, line: string, from: nat): (r: Option<nat>)
    ensures r.Some? ==> from + |pattern| <= r.value <= |line| && OccursAt(pattern, line, r.value - |pattern|)
    ensures r.None? ==> forall i :: from <= i ==> !OccursAt(pattern, line, i)
  {
    match IndexOf(line, pattern, from)
    case None => None
    case Some(j) => Some(j + |pattern|)
  }

  /**
   * With the content `xa` / `a` and the pattern `a`, the first line's match ends
   * at index 2, the second line is searched from index 2 and is dropped, though
   * it contains the pattern.
   */
  lemma GrepSkipsLine()
    ensures var rx := Regex(p => true, LiteralSearch);
      && MatchingLines(rx, "a", ["xa", "a"]) == ["xa", "a"]
      && StickyLines(rx, "a", ["xa", "a"], 0) == ["xa"]
  {
    var rx := Regex(p => true, LiteralSearch);
    SearchExample();
    assert rx.search("a", "xa", 0) == Some(2) && rx.search("a", "a", 0) == Some(1);
    assert ["xa", "a"][1..] == ["a"] && ["a"][1..] == [];
  }

  lemma SearchExample()
    ensures LiteralSearch("a", "xa", 0) == Some(2) && LiteralSearch("a", "a", 0) == Some(1)
  {
    assert !OccursAt("a", "xa", 0) by {
      assert "xa"[0..1] == "x";
    }
    assert OccursAt("a", "xa", 1) by {
      assert "xa"[1..2] == "a";
    }
    assert IndexOf("xa", "a", 0) == Some(1);
    assert OccursAt("a", "a", 0) by {
      assert "a"[0..1] == "a";
    }
  }
}
