/**
 * The command interpreter: `resolvePath`, and `handleCommand`, which splits a
 * line into a verb and its arguments and runs the verb against the
 * filesystem store and the terminal session.
 *
 * Each verb is specified by a function of the tree and working directory
 * before the call; `Interpret` dispatches among them and is the
 * specification of `HandleCommand`, which performs the same steps through
 * the stores' methods.
 */
module CommandHandler {
  import opened Wrappers
  import opened Text
  import opened FileTree
  import opened FileSystemStore
  import opened TerminalStore

  // ---------------------------------------------------------------------------
  // resolvePath
  // ---------------------------------------------------------------------------

  /** `parts.pop()`, which does nothing on an empty array. */
  function Pop(parts: seq<string>): (r: seq<string>)
    ensures |r| == if parts == [] then 0 else |parts| - 1
    ensures r == parts[..|r|]
  {
    if parts == [] then [] else parts[..|parts| - 1]
  }

  /** The segments after walking `steps` from `parts`: `..` pops, anything else is pushed. */
  function Navigate(parts: seq<string>, steps: seq<string>): seq<string>
    decreases |steps|
  {
    if steps == [] then parts
    else
      var before := Navigate(parts, steps[..|steps| - 1]);
      if steps[|steps| - 1] == ".." then Pop(before) else before + [steps[|steps| - 1]]
  }

  /** `filter((p) => p !== '.')`: empty pieces stay. */
  function DropDots(pieces: seq<string>): (r: seq<string>)
    ensures forall x :: x in r <==> x in pieces && x != "."
  {
    if pieces == [] then []
    else (if pieces[0] == "." then [] else [pieces[0]]) + DropDots(pieces[1..])
  }

  /** Dropping `.` pieces keeps every other piece as often as it occurs. */
  lemma {:induction false} DropDotsCounts(pieces: seq<string>)
    ensures multiset(DropDots(pieces)) == multiset(pieces)["." := 0]
  {
    if pieces != [] {
      DropDotsCounts(pieces[1..]);
      assert pieces == [pieces[0]] + pieces[1..];
      assert multiset(pieces) == multiset{pieces[0]} + multiset(pieces[1..]);
    }
  }

  /** Dropping `.` pieces keeps the others in their order: it distributes over concatenation. */
  lemma {:induction false} DropDotsAppend(a: seq<string>, b: seq<string>)
    ensures DropDots(a + b) == DropDots(a) + DropDots(b)
  {
    if a != [] {
      var head := if a[0] == "." then [] else [a[0]];
      assert (a + b)[0] == a[0];
      assert (a + b)[1..] == a[1..] + b;
      DropDotsAppend(a[1..], b);
      assert DropDots(a + b) == head + DropDots(a[1..] + b);
      assert DropDots(a) == head + DropDots(a[1..]);
    } else {
      assert a + b == b;
    }
  }

  /** What `resolvePath(currentPath, targetPath)` returns. */
  function Resolved(cwd: string, target: string): string {
    if StartsWith(target, "/") then target
    else if target == "." then cwd
    else if target == ".." then "/" + Join(Pop(Segments(cwd)), '/')
    else if StartsWith(target, "../") then
      "/" + Join(Navigate(Segments(cwd), DropDots(SplitBy(target, IsSlash))), '/')
    else if cwd == "/" then "/" + target
    else cwd + "/" + target
  }

  /** `resolvePath`: the `../` case walks the target's pieces with a push/pop loop. */
  method ResolvePath(currentPath: string, targetPath: string) returns (r: string)
    ensures r == Resolved(currentPath, targetPath)
  {
    if StartsWith(targetPath, "/") {
      return targetPath;
    }
    if targetPath == "." {
      return currentPath;
    }
    if targetPath == ".." {
      var parts := Segments(currentPath);
      if |parts| > 0 {
        parts := parts[..|parts| - 1];
      }
      return "/" + Join(parts, '/');
    }
    if StartsWith(targetPath, "../") {
      var parts := Segments(currentPath);
      var targetParts := DropDots(SplitBy(targetPath, IsSlash));
      for i := 0 to |targetParts|
        invariant parts == Navigate(Segments(currentPath), targetParts[..i])
      {
        assert targetParts[..i + 1][..i] == targetParts[..i];
        if targetParts[i] == ".." {
          if |parts| > 0 {
            parts := parts[..|parts| - 1];
          }
        } else {
          parts := parts + [targetParts[i]];
        }
      }
      assert targetParts[..|targetParts|] == targetParts;
      return "/" + Join(parts, '/');
    }
    return if currentPath == "/" then "/" + targetPath else currentPath + "/" + targetPath;
  }

  // ---------------------------------------------------------------------------
  // results and effects
  // ---------------------------------------------------------------------------

  /** `CommandResult`; an absent `isError` reads as false. */
  datatype CommandResult = CommandResult(output: string, isError: bool)

  function Ok(output: string): CommandResult { CommandResult(output, false) }
  function Fail(output: string): CommandResult { CommandResult(output, true) }

  /** What a command asks of the terminal session. */
  datatype Effect =
    | NoEffect
    | ClearTerminal                            // clearHistory()
    | OpenPanel(content: string, title: string) // openBlogPanel(content, title)
    | ShowWhoami                               // setShowWhoamiModal(true)

  /** A command's result with the tree, working directory and terminal effect it leaves. */
  datatype Outcome = Outcome(result: CommandResult, root: Node, cwd: string, effect: Effect)

  function Unchanged(root: Node, cwd: string, result: CommandResult): Outcome {
    Outcome(result, root, cwd, NoEffect)
  }

  /**
   * grep's pattern engine, which this model does not interpret: whether a
   * pattern compiles, and `search(pattern, line, from)`, the end of the first
   * case-insensitive match starting at or after `from`.
   */
  datatype Regex = Regex(compiles: string -> bool, search: (string, string, nat) -> Option<nat>)

  // ---------------------------------------------------------------------------
  // the verbs
  // ---------------------------------------------------------------------------

  const HelpText: string :=
    "Available commands:\n"
    + "  cd <path>       Change directory\n"
    + "  ls [path]       List directory contents\n"
    + "  touch <file>    Create a new file\n"
    + "  echo <text>     Output text (use > to redirect to file)\n"
    + "  cat <file>      Display file contents\n"
    + "  grep <pattern> <file>  Search for pattern in file\n"
    + "  rm <path>       Remove file or directory\n"
    + "  clear           Clear terminal history\n"
    + "  open <file>     Open markdown file in panel\n"
    + "  whoami          Display profile information\n"
    + "  help            Show this help message"

  /** `cd`: no argument goes to `/`; otherwise only to a directory, through `resolvePath`. */
  function Cd(root: Node, cwd: string, args: seq<string>): (o: Outcome)
    ensures o.root == root && o.effect == NoEffect
    ensures o.result.isError ==> o.cwd == cwd
  {
    if args == [] then Outcome(Ok(""), root, "/", NoEffect)
    else
      var target := Resolved(cwd, args[0]);
      var node := NodeAt(root, cwd, target);
      if node.None? then Unchanged(root, cwd, Fail("cd: " + args[0] + ": No such file or directory"))
      else if node.value.kind != Directory then Unchanged(root, cwd, Fail("cd: " + args[0] + ": Not a directory"))
      else Outcome(Ok(""), root, target, NoEffect)
  }

  /** The marker in front of each name `ls` prints: a folder or a page pictograph and a space. */
  function Marker(kind: Kind): string {
    if kind == Directory then "\U{1F4C1} " else "\U{1F4C4} "
  }

  function EntryLines(nodes: seq<Node>): (r: seq<string>)
    ensures |r| == |nodes|
  {
    seq(|nodes|, i requires 0 <= i < |nodes| => Marker(nodes[i].kind) + nodes[i].name)
  }

  /** The directory `ls` lists: the resolved argument, or `currentPath`. */
  function LsTarget(cwd: string, args: seq<string>): string {
    if |args| > 0 then Resolved(cwd, args[0]) else cwd
  }

  /** `ls`: the listing of the target, one entry per line. */
  function Ls(root: Node, cwd: string, args: seq<string>): CommandResult {
    match ListAt(root, cwd, LsTarget(cwd, args))
    case None => Fail("ls: cannot access '" + (if |args| > 0 then args[0] else ".") + "': No such file or directory")
    case Some(nodes) => if nodes == [] then Ok("") else Ok(Join(EntryLines(nodes), '\n'))
  }

  /** `touch`: creates an empty file at the raw argument. */
  function Touch(root: Node, cwd: string, args: seq<string>, now: nat): (o: Outcome)
    ensures o.cwd == cwd && o.effect == NoEffect
    ensures o.result.isError ==> o.root == root
  {
    if args == [] then Unchanged(root, cwd, Fail("touch: missing file operand"))
    else
      match CreateAt(root, cwd, args[0], File, "", now)
      case None => Unchanged(root, cwd, Fail("touch: cannot create file '" + args[0] + "'"))
      case Some(r) => Outcome(Ok(""), r, cwd, NoEffect)
  }

  /** `mkdir`: creates an empty directory at the raw argument. */
  function Mkdir(root: Node, cwd: string, args: seq<string>, now: nat): (o: Outcome)
    ensures o.cwd == cwd && o.effect == NoEffect
    ensures o.result.isError ==> o.root == root
  {
    if args == [] then Unchanged(root, cwd, Fail("mkdir: missing directory operand"))
    else
      match CreateAt(root, cwd, args[0], Directory, "", now)
      case None => Unchanged(root, cwd, Fail("mkdir: cannot create directory '" + args[0] + "'"))
      case Some(r) => Outcome(Ok(""), r, cwd, NoEffect)
  }

  /**
   * The first `>` from index `from` on that has at least one character after it.
   * The text echo inspects is words joined by single spaces, so it holds no line
   * terminator and every character can be matched.
   */
  function RedirectFrom(text: string, from: nat): (r: Option<nat>)
    requires from >= 1
    ensures r.Some? ==> from <= r.value && r.value + 1 < |text| && text[r.value] == '>'
    ensures forall k :: from <= k && k + 1 < |text| && (r.None? || k < r.value) ==> text[k] != '>'
    decreases |text| - from
  {
    if from + 1 >= |text| then None
    else if text[from] == '>' then Some(from)
    else RedirectFrom(text, from + 1)
  }

  /**
   * Where `^(.+?)\s*>\s*(.+)$` splits echo's text: at the first `>` that has a
   * character before it and a character after it. The lazy first group stops
   * at that `>` (less any whitespace before it, which trimming removes anyway).
   */
  function RedirectAt(text: string): (r: Option<nat>)
    ensures r.Some? ==> 1 <= r.value && r.value + 1 < |text| && text[r.value] == '>'
    ensures forall k :: 1 <= k && k + 1 < |text| && (r.None? || k < r.value) ==> text[k] != '>'
  {
    RedirectFrom(text, 1)
  }

  /** `echo`: prints its arguments, or writes to or creates the file named after the `>`. */
  function Echo(root: Node, cwd: string, args: seq<string>, now: nat): (o: Outcome)
    ensures o.cwd == cwd && o.effect == NoEffect
    ensures o.result.isError ==> o.root == root
  {
    var text := Join(args, ' ');
    match RedirectAt(text)
    case None => Unchanged(root, cwd, Ok(text))
    case Some(j) => Redirect(root, cwd, Trim(text[..j]), Trim(text[j + 1..]), now)
  }

  /**
   * `echo content > filename`: overwrites the node if resolvePath finds one,
   * creates a file otherwise; both through the store, with the raw file name.
   */
  function Redirect(root: Node, cwd: string, content: string, filename: string, now: nat): (o: Outcome)
    ensures o.cwd == cwd && o.effect == NoEffect
    ensures o.result.isError ==> o.root == root
  {
    if NodeAt(root, cwd, Resolved(cwd, filename)).Some? then
      match WriteAt(root, cwd, filename, content, now)
      case None => Unchanged(root, cwd, Fail("echo: cannot write to '" + filename + "'"))
      case Some(r) => Outcome(Ok(""), r, cwd, NoEffect)
    else
      match CreateAt(root, cwd, filename, File, content, now)
      case None => Unchanged(root, cwd, Fail("echo: cannot create file '" + filename + "'"))
      case Some(r) => Outcome(Ok(""), r, cwd, NoEffect)
  }

  /** `cat`: the content of the file at the raw argument. */
  function Cat(root: Node, cwd: string, args: seq<string>): CommandResult {
    if args == [] then Fail("cat: missing file operand")
    else
      match ReadAt(root, cwd, args[0])
      case None => Fail("cat: " + args[0] + ": No such file or directory")
      case Some(content) => Ok(content)
  }

  /** The lines that contain a match of the pattern, in their order. */
  function MatchingLines(rx: Regex, pattern: string, lines: seq<string>): (r: seq<string>)
    ensures forall x :: x in r <==> x in lines && rx.search(pattern, x, 0).Some?
    ensures |r| <= |lines|
  {
    if lines == [] then []
    else (if rx.search(pattern, lines[0], 0).Some? then [lines[0]] else []) + MatchingLines(rx, pattern, lines[1..])
  }

  /** A single line is kept exactly when the pattern matches it. */
  lemma MatchingLine(rx: Regex, pattern: string, line: string)
    ensures MatchingLines(rx, pattern, [line]) == if rx.search(pattern, line, 0).Some? then [line] else []
  {
    assert [line][1..] == [];
  }

  /**
   * Filtering lines one after another is filtering each part in turn, so the kept
   * lines come out in file order with repeated lines kept.
   */
  lemma {:induction false} MatchingLinesAppend(rx: Regex, pattern: string, a: seq<string>, b: seq<string>)
    ensures MatchingLines(rx, pattern, a + b) == MatchingLines(rx, pattern, a) + MatchingLines(rx, pattern, b)
    decreases |a|
  {
    if a == [] {
      assert a + b == b;
    } else {
      assert (a + b)[0] == a[0] && (a + b)[1..] == a[1..] + b;
      MatchingLinesAppend(rx, pattern, a[1..], b);
    }
  }

  /** `grep`: the lines of the file that match the pattern. */
  function Grep(root: Node, cwd: string, args: seq<string>, rx: Regex): CommandResult {
    if |args| < 2 then Fail("grep: missing pattern or file operand")
    else
      match ReadAt(root, cwd, args[1])
      case None => Fail("grep: " + args[1] + ": No such file or directory")
      case Some(content) =>
        if !rx.compiles(args[0]) then Fail("grep: invalid pattern '" + args[0] + "'")
        else
          var matches := MatchingLines(rx, args[0], SplitBy(content, IsNewline));
          if matches == [] then Ok("") else Ok(Join(matches, '\n'))
  }

  /** `rm`: deletes the node at the raw argument. */
  function Rm(root: Node, cwd: string, args: seq<string>, now: nat): (o: Outcome)
    ensures o.cwd == cwd && o.effect == NoEffect
    ensures o.result.isError ==> o.root == root
  {
    if args == [] then Unchanged(root, cwd, Fail("rm: missing file operand"))
    else
      match DeleteAt(root, cwd, args[0], now)
      case None => Unchanged(root, cwd, Fail("rm: cannot remove '" + args[0] + "'"))
      case Some(r) => Outcome(Ok(""), r, cwd, NoEffect)
  }

  /** `arg.split('/').pop() || arg` */
  function LastPiece(arg: string): string {
    var pieces := SplitBy(arg, IsSlash);
    var last := pieces[|pieces| - 1];
    if last != "" then last else arg
  }

  /** The panel title: the first `.md` removed, every `-` turned into a space. */
  function Title(fileName: string): string {
    ReplaceAll(RemoveFirst(fileName, ".md"), '-', ' ')
  }

  /** `open`: a markdown file goes to the blog panel; existence is checked before the extension. */
  function Open(root: Node, cwd: string, args: seq<string>): Outcome {
    if args == [] then Unchanged(root, cwd, Fail("open: missing file operand"))
    else
      match ReadAt(root, cwd, args[0])
      case None => Unchanged(root, cwd, Fail("open: " + args[0] + ": No such file or directory"))
      case Some(content) =>
        if !EndsWith(args[0], ".md") then Unchanged(root, cwd, Fail("open: " + args[0] + ": Not a markdown file"))
        else
          var fileName := LastPiece(args[0]);
          Outcome(Ok("Opening " + fileName + "..."), root, cwd, OpenPanel(content, Title(fileName)))
  }

  function NotFound(cmd: string): string {
    cmd + ": command not found. Type 'help' for available commands."
  }

  /** The `switch` of `handleCommand` on the lower-cased verb. */
  function Dispatch(root: Node, cwd: string, cmd: string, args: seq<string>, rx: Regex, now: nat): Outcome {
    if cmd == "help" then Unchanged(root, cwd, Ok(HelpText))
    else if cmd == "clear" then Outcome(Ok(""), root, cwd, ClearTerminal)
    else if cmd == "pwd" then Unchanged(root, cwd, Ok(cwd))
    else if cmd == "cd" then Cd(root, cwd, args)
    else if cmd == "ls" then Unchanged(root, cwd, Ls(root, cwd, args))
    else if cmd == "touch" then Touch(root, cwd, args, now)
    else if cmd == "mkdir" then Mkdir(root, cwd, args, now)
    else DispatchRest(root, cwd, cmd, args, rx, now)
  }

  /** The rest of the `switch`, from `echo` on. */
  function DispatchRest(root: Node, cwd: string, cmd: string, args: seq<string>, rx: Regex, now: nat): Outcome {
    if cmd == "echo" then Echo(root, cwd, args, now)
    else if cmd == "cat" then Unchanged(root, cwd, Cat(root, cwd, args))
    else if cmd == "grep" then Unchanged(root, cwd, Grep(root, cwd, args, rx))
    else if cmd == "rm" then Rm(root, cwd, args, now)
    else DispatchSession(root, cwd, cmd, args)
  }

  /** The verbs that act on the terminal session, and the unknown ones. */
  function DispatchSession(root: Node, cwd: string, cmd: string, args: seq<string>): Outcome {
    if cmd == "open" then Open(root, cwd, args)
    else if cmd == "whoami" then Outcome(Ok(""), root, cwd, ShowWhoami)
    else Unchanged(root, cwd, Fail(NotFound(cmd)))
  }

  /** What `handleCommand(line)` returns and leaves behind. */
  function Interpret(root: Node, cwd: string, line: string, rx: Regex, now: nat): Outcome {
    var trimmed := Trim(line);
    if trimmed == "" then Unchanged(root, cwd, Ok(""))
    else
      WordsOfTrimmed(trimmed);
      var parts := Words(trimmed);
      Dispatch(root, cwd, Lower(parts[0]), parts[1..], rx, now)
  }

  // ---------------------------------------------------------------------------
  // handleCommand, through the stores
  // ---------------------------------------------------------------------------

  /** The terminal session shows the effect and nothing else changed. */
  twostate predicate Shows(term: TerminalSession, e: Effect)
    reads term
  {
    && term.history == (if e.ClearTerminal? then [] else old(term.history))
    && term.sessionStartTime == old(term.sessionStartTime)
    && term.showImprintModal == old(term.showImprintModal)
    && term.showWhoamiModal == (e.ShowWhoami? || old(term.showWhoamiModal))
    && term.blogPanelOpen == (e.OpenPanel? || old(term.blogPanelOpen))
    && term.currentBlogContent == (if e.OpenPanel? then Some(e.content) else old(term.currentBlogContent))
    && term.currentBlogTitle == (if e.OpenPanel? then Some(e.title) else old(term.currentBlogTitle))
  }

  method RunCd(fs: FileSystem, args: seq<string>) returns (res: CommandResult)
    requires fs.Valid()
    modifies fs
    ensures fs.Valid()
    ensures var o := Cd(old(fs.root), old(fs.currentPath), args);
      res == o.result && fs.root == o.root && fs.currentPath == o.cwd
  {
    if |args| == 0 {
      fs.SetCurrentPath("/");
      return Ok("");
    }
    var targetPath := ResolvePath(fs.currentPath, args[0]);
    var node := fs.GetNodeAtPath(targetPath);
    if node.None? {
      return Fail("cd: " + args[0] + ": No such file or directory");
    }
    if node.value.kind != Directory {
      return Fail("cd: " + args[0] + ": Not a directory");
    }
    fs.SetCurrentPath(targetPath);
    return Ok("");
  }

  method RunLs(fs: FileSystem, args: seq<string>) returns (res: CommandResult)
    ensures res == Ls(fs.root, fs.currentPath, args)
  {
    var targetPath := fs.currentPath;
    if |args| > 0 {
      targetPath := ResolvePath(fs.currentPath, args[0]);
    }
    var nodes := fs.ListDirectory(targetPath);
    if nodes.None? {
      return Fail("ls: cannot access '" + (if |args| > 0 then args[0] else ".") + "': No such file or directory");
    }
    if |nodes.value| == 0 {
      return Ok("");
    }
    return Ok(Join(EntryLines(nodes.value), '\n'));
  }

  method RunTouch(fs: FileSystem, args: seq<string>, now: nat) returns (res: CommandResult)
    requires fs.Valid()
    modifies fs
    ensures fs.Valid()
    ensures var o := Touch(old(fs.root), old(fs.currentPath), args, now);
      res == o.result && fs.root == o.root && fs.currentPath == o.cwd
  {
    if |args| == 0 {
      return Fail("touch: missing file operand");
    }
    var success := fs.CreateFile(args[0], now);
    if !success {
      return Fail("touch: cannot create file '" + args[0] + "'");
    }
    return Ok("");
  }

  method RunMkdir(fs: FileSystem, args: seq<string>, now: nat) returns (res: CommandResult)
    requires fs.Valid()
    modifies fs
    ensures fs.Valid()
    ensures var o := Mkdir(old(fs.root), old(fs.currentPath), args, now);
      res == o.result && fs.root == o.root && fs.currentPath == o.cwd
  {
    if |args| == 0 {
      return Fail("mkdir: missing directory operand");
    }
    var success := fs.CreateDirectory(args[0], now);
    if !success {
      return Fail("mkdir: cannot create directory '" + args[0] + "'");
    }
    return Ok("");
  }

  method RunEcho(fs: FileSystem, args: seq<string>, now: nat) returns (res: CommandResult)
    requires fs.Valid()
    modifies fs
    ensures fs.Valid()
    ensures var o := Echo(old(fs.root), old(fs.currentPath), args, now);
      res == o.result && fs.root == o.root && fs.currentPath == o.cwd
  {
    var text := Join(args, ' ');
    var redirect := RedirectAt(text);
    if redirect.None? {
      return Ok(text);
    }
    var j := redirect.value;
    var trimmedContent := Trim(text[..j]);
    var trimmedFilename := Trim(text[j + 1..]);
    assert Echo(fs.root, fs.currentPath, args, now)
      == Redirect(fs.root, fs.currentPath, trimmedContent, trimmedFilename, now);
    var targetPath := ResolvePath(fs.currentPath, trimmedFilename);
    var node := fs.GetNodeAtPath(targetPath);
    if node.Some? {
      var success := fs.WriteFile(trimmedFilename, trimmedContent, now);
      if !success {
        return Fail("echo: cannot write to '" + trimmedFilename + "'");
      }
    } else {
      var success := fs.CreateFile(trimmedFilename, now, trimmedContent);
      if !success {
        return Fail("echo: cannot create file '" + trimmedFilename + "'");
      }
    }
    return Ok("");
  }

  method RunCat(fs: FileSystem, args: seq<string>) returns (res: CommandResult)
    ensures res == Cat(fs.root, fs.currentPath, args)
  {
    if |args| == 0 {
      return Fail("cat: missing file operand");
    }
    var content := fs.ReadFile(args[0]);
    if content.None? {
      return Fail("cat: " + args[0] + ": No such file or directory");
    }
    return Ok(content.value);
  }

  method RunGrep(fs: FileSystem, args: seq<string>, rx: Regex) returns (res: CommandResult)
    ensures res == Grep(fs.root, fs.currentPath, args, rx)
  {
    if |args| < 2 {
      return Fail("grep: missing pattern or file operand");
    }
    var pattern := args[0];
    var filename := args[1];
    var content := fs.ReadFile(filename);
    if content.None? {
      return Fail("grep: " + filename + ": No such file or directory");
    }
    if !rx.compiles(pattern) {
      return Fail("grep: invalid pattern '" + pattern + "'");
    }
    var matches := MatchingLines(rx, pattern, SplitBy(content.value, IsNewline));
    if |matches| == 0 {
      return Ok("");
    }
    return Ok(Join(matches, '\n'));
  }

  method RunRm(fs: FileSystem, args: seq<string>, now: nat) returns (res: CommandResult)
    requires fs.Valid()
    modifies fs
    ensures fs.Valid()
    ensures var o := Rm(old(fs.root), old(fs.currentPath), args, now);
      res == o.result && fs.root == o.root && fs.currentPath == o.cwd
  {
    if |args| == 0 {
      return Fail("rm: missing file operand");
    }
    var success := fs.DeleteNode(args[0], now);
    if !success {
      return Fail("rm: cannot remove '" + args[0] + "'");
    }
    return Ok("");
  }

  method RunOpen(fs: FileSystem, term: TerminalSession, args: seq<string>) returns (res: CommandResult)
    modifies term
    ensures var o := Open(fs.root, fs.currentPath, args);
      res == o.result && Shows(term, o.effect)
  {
    if |args| == 0 {
      return Fail("open: missing file operand");
    }
    var content := fs.ReadFile(args[0]);
    if content.None? {
      return Fail("open: " + args[0] + ": No such file or directory");
    }
    if !EndsWith(args[0], ".md") {
      return Fail("open: " + args[0] + ": Not a markdown file");
    }
    var fileName := LastPiece(args[0]);
    var title := Title(fileName);
    term.OpenBlogPanel(content.value, title);
    return Ok("Opening " + fileName + "...");
  }

  /** `handleCommand` */
  method HandleCommand(fs: FileSystem, term: TerminalSession, line: string, rx: Regex, now: nat)
    returns (res: CommandResult)
    requires fs.Valid()
    modifies fs, term
    ensures fs.Valid()
    ensures var o := Interpret(old(fs.root), old(fs.currentPath), line, rx, now);
      res == o.result && fs.root == o.root && fs.currentPath == o.cwd && Shows(term, o.effect)
  {
    var trimmed := Trim(line);
    if trimmed == "" {
      return Ok("");
    }
    WordsOfTrimmed(trimmed);
    var parts := Words(trimmed);
    res := RunVerb(fs, term, Lower(parts[0]), parts[1..], rx, now);
  }

  /** The `switch` of `handleCommand`, through the stores. */
  method RunVerb(fs: FileSystem, term: TerminalSession, cmd: string, args: seq<string>, rx: Regex, now: nat)
    returns (res: CommandResult)
    requires fs.Valid()
    modifies fs, term
    ensures fs.Valid()
    ensures var o := Dispatch(old(fs.root), old(fs.currentPath), cmd, args, rx, now);
      res == o.result && fs.root == o.root && fs.currentPath == o.cwd && Shows(term, o.effect)
  {
    if cmd == "help" {
      res := Ok(HelpText);
    } else if cmd == "clear" {
      term.ClearHistory();
      res := Ok("");
    } else if cmd == "pwd" {
      res := Ok(fs.currentPath);
    } else if cmd == "cd" {
      res := RunCd(fs, args);
    } else if cmd == "ls" {
      res := RunLs(fs, args);
    } else if cmd == "touch" {
      res := RunTouch(fs, args, now);
    } else if cmd == "mkdir" {
      res := RunMkdir(fs, args, now);
    } else {
      res := RunRest(fs, term, cmd, args, rx, now);
    }
  }

  method RunRest(fs: FileSystem, term: TerminalSession, cmd: string, args: seq<string>, rx: Regex, now: nat)
    returns (res: CommandResult)
    requires fs.Valid()
    modifies fs, term
    ensures fs.Valid()
    ensures var o := DispatchRest(old(fs.root), old(fs.currentPath), cmd, args, rx, now);
      res == o.result && fs.root == o.root && fs.currentPath == o.cwd && Shows(term, o.effect)
  {
    if cmd == "echo" {
      res := RunEcho(fs, args, now);
    } else if cmd == "cat" {
      res := RunCat(fs, args);
    } else if cmd == "grep" {
      res := RunGrep(fs, args, rx);
    } else if cmd == "rm" {
      res := RunRm(fs, args, now);
    } else {
      res := RunSession(fs, term, cmd, args);
    }
  }

  method RunSession(fs: FileSystem, term: TerminalSession, cmd: string, args: seq<string>)
    returns (res: CommandResult)
    modifies term
    ensures var o := DispatchSession(fs.root, fs.currentPath, cmd, args);
      res == o.result && o.root == fs.root && o.cwd == fs.currentPath && Shows(term, o.effect)
  {
    if cmd == "open" {
      res := RunOpen(fs, term, args);
    } else if cmd == "whoami" {
      term.SetShowWhoamiModal(true);
      res := Ok("");
    } else {
      res := Fail(NotFound(cmd));
    }
  }
}
