# A verified model of the partschi-site terminal

The site shows a terminal that runs in the browser. It has an in-memory file
system whose root always holds a directory `blog`. Its command interpreter
knows `help`, `clear`, `pwd`, `cd`, `ls`, `touch`, `mkdir`, `echo` (with
`>` redirection), `cat`, `grep`, `rm`, `open` and `whoami`. A terminal
session store keeps the history, two modal flags and the blog panel. A
loader seeds `/blog` with the bundled posts at start-up.

This project models those four pieces in Dafny.

- `FileTree` (`file_tree.dfy`) holds the `FileNode` tree. It has the walk of
  `getNodeAtPath`. It also has `Rebuild`, the copy-on-write `updateNode`
  helper. `createFile`, `createDirectory`, `deleteNode` and `writeFile` each
  carry their own copy of that helper. The model writes it once, with an
  `Edit` that says what happens at the end of the path.
- `Listing` (`listing.dfy`) gives the order of `listDirectory`.
- `FileSystemStore` (`file_system_store.dfy`) has one pure function per store
  operation, over `(root, currentPath)`. The class `FileSystem` holds the
  store's two fields, and its methods are proved against those functions.
- `TerminalStore` (`terminal_store.dfy`) has the class `TerminalSession`.
  Each action sets its fields and leaves the other fields alone.
- `CommandHandler` (`command_handler.dfy`) has two layers:
  - pure specifications: `Resolved` for `resolvePath`, one function per verb,
    and `Interpret` for a whole line;
  - the methods `ResolvePath` and `HandleCommand`, which run a line through
    the two stores and are proved equal to `Interpret`.
- `CommandProperties` (`command_properties.dfy`) holds what the interpreter
  promises, stated over `Interpret`.
- `BlogLoader` (`blog_loader.dfy`) has `loadBlogPosts`.
- `Text` (`text.dfy`) and `Wrappers` (`wrappers.dfy`) model the JavaScript
  string operations the code relies on: `split`, `join`, `trim`,
  `split(/\s+/)`, `toLowerCase`, `startsWith`, `endsWith`, `replace` and
  `localeCompare`.

Paths are read in two different ways.

- `cd`, `ls` and the existence check of `echo >` go through `resolvePath`,
  which reads `.`, `..` and `../x` specially.
- `touch`, `mkdir`, `cat`, `rm`, `open` and the write of `echo >` pass the
  raw argument to the store. The store puts `currentPath` in front of any
  path that does not start with `/`. A `..` there is a child with that
  literal name.

`ParentInBothRegimes` states the difference, and `ResolvedPlain` states
where the two readings agree.

Clocks become a `now: nat` parameter, standing for a tick. grep's regular
expression engine becomes a `Regex` parameter: whether a pattern compiles,
and where its first match after a given index ends.

## Model

| member | source | states |
|---|---|---|
| FileTree.DefaultRoot | src/stores/useFileSystemStore.ts:7-21 | The default tree is a root directory whose only child is the empty directory `blog`, and `/blog` resolves to it. |
| FileTree.LookupAppend | src/stores/useFileSystemStore.ts:97-112 | Walking `a + b` is walking `a`, then `b` from the node `a` reaches; a failed walk stays failed. |
| FileTree.LookupStep | src/stores/useFileSystemStore.ts:105-110 | One more segment succeeds exactly when the node reached has a children map holding that name. |
| FileTree.RebuildReachesParent | src/stores/useFileSystemStore.ts:141-166 | When the walk to the parent succeeds, the rebuilt tree holds the parent with the edit applied. |
| FileTree.RebuildFrame | src/stores/useFileSystemStore.ts:153-163 | Every path that parts from the edited entry's path reaches the same node as before. |
| FileTree.RebuildAlongPath | src/stores/useFileSystemStore.ts:296-305 | Ancestors on the path keep name, kind, content and creation time. Create and delete stamp them `now`; a write leaves their `modifiedAt` alone. |
| FileTree.RebuildWriteMissing | src/stores/useFileSystemStore.ts:277-280 | A write whose target is missing or not a file leaves the tree exactly as it was. |
| FileTree.InsertFound | src/stores/useFileSystemStore.ts:142-150 | The inserted child is found at the parent's path plus its name. |
| FileTree.RemoveGone | src/stores/useFileSystemStore.ts:238-245 | After a removal, neither the removed name nor anything below it resolves. |
| FileTree.WriteFound | src/stores/useFileSystemStore.ts:282-293 | A write to an existing file replaces its content, stamps it and keeps the rest of its entry. |
| FileTree.RebuildKeepsBlog | src/stores/useFileSystemStore.ts:232-234 | No rebuild removes `/blog` unless it inserts or removes `blog` at the root. |
| Listing.ListedTotal | src/stores/useFileSystemStore.ts:323-326 | The comparator of `listDirectory` orders any two entries one way or the other. |
| Listing.ListedTransitive | src/stores/useFileSystemStore.ts:323-326 | The comparator is transitive. |
| Listing.InsertListed | src/stores/useFileSystemStore.ts:323-326 | Inserting into a sorted listing keeps it sorted and adds exactly that entry. |
| Listing.SortListing | src/stores/useFileSystemStore.ts:323-326 | The sort returns a sorted permutation of its input. |
| Listing.SmallestOf | src/stores/useFileSystemStore.ts:323 | A non-empty set of names has a least one in code-point order. |
| Listing.KeysInOrder | src/stores/useFileSystemStore.ts:323 | Each key of a directory appears once, and nothing else. |
| Listing.Enumerate | src/stores/useFileSystemStore.ts:323 | `Object.values` yields one entry per key, all of them children. |
| Listing.EnumerateCounts | src/stores/useFileSystemStore.ts:323 | `Object.values` holds each child exactly as many times as there are keys holding it. |
| Listing.ListingOf | src/stores/useFileSystemStore.ts:320-327 | A listing is a permutation of the children: directories first, each group in name order, one entry per child. |
| Listing.ListingCounts | src/stores/useFileSystemStore.ts:320-327 | A listing holds each child exactly as many times as there are keys holding it. |
| FileSystemStore.PathParts | src/stores/useFileSystemStore.ts:99-100 | The segments the store walks are non-empty and slash-free. |
| FileSystemStore.Locate | src/stores/useFileSystemStore.ts:120-124 | There is no leaf exactly when the path has no segments; otherwise the segments are the parent's plus the leaf. |
| FileSystemStore.ReadAt | src/stores/useFileSystemStore.ts:314-318 | `readFile` answers exactly when the path reaches a file. |
| FileSystemStore.ListAt | src/stores/useFileSystemStore.ts:320-327 | `listDirectory` answers exactly for a directory with a children map, giving one entry per child, directories first, each group in name order. |
| FileSystemStore.ListAtCounts | src/stores/useFileSystemStore.ts:320-327 | `listDirectory` returns each child of the directory exactly as many times as there are keys holding it. |
| FileSystemStore.PrefixResolves | src/stores/useFileSystemStore.ts:104-111 | A walk that succeeds passes through every prefix of its path. |
| FileSystemStore.RebuildAgrees | src/stores/useFileSystemStore.ts:141-166 | A path not running through the edited entry keeps whether it resolves and the entry it reaches. |
| FileSystemStore.CreateEffect | src/stores/useFileSystemStore.ts:118-170 | A successful create puts the new node at the path, leaves every diverging path alone and stamps every ancestor `now`. |
| FileSystemStore.CreateTwiceRefused | src/stores/useFileSystemStore.ts:130 | Creating the same path a second time is refused, whatever the kind. |
| FileSystemStore.ReadAfterCreate | src/stores/useFileSystemStore.ts:118-170 | A file that was created reads back as the content it was given. |
| FileSystemStore.CreateKeepsBlog | src/stores/useFileSystemStore.ts:172-224 | `/blog` stays a directory under the root after any create. |
| FileSystemStore.DeleteRefusals | src/stores/useFileSystemStore.ts:232-234 | `deleteNode` refuses exactly an empty path and `/blog`. |
| FileSystemStore.DeleteKeepsBlog | src/stores/useFileSystemStore.ts:232-234 | `/blog` stays a directory under the root after any delete. |
| FileSystemStore.DeleteEffect | src/stores/useFileSystemStore.ts:226-265 | After a delete the path does not resolve and diverging paths are unchanged. Deleting a missing node still succeeds, and then every path resolves as before, to the same entry. |
| FileSystemStore.WriteRefusals | src/stores/useFileSystemStore.ts:271-273 | `writeFile` returns false exactly when the path has no leaf, even when nothing is written. |
| FileSystemStore.WriteEffect | src/stores/useFileSystemStore.ts:267-312 | A write to an existing file replaces its content and stamps it. Its parent keeps its entry and is stamped `now`. The directories above the parent keep their `modifiedAt`. Any other target leaves the tree unchanged. |
| FileSystemStore.ReadAfterWrite | src/stores/useFileSystemStore.ts:267-318 | A write to an existing file reads back as the new content. |
| FileSystemStore.WriteKeepsBlog | src/stores/useFileSystemStore.ts:267-312 | `/blog` stays a directory under the root after any write. |
| FileSystemStore.DefaultListing | src/stores/useFileSystemStore.ts:7-21 | The default root lists exactly the directory `blog`. |
| FileSystemStore.DefaultBlogEmpty | src/stores/useFileSystemStore.ts:12-19 | The default `/blog` lists nothing. |
| FileSystemStore.FileSystem.constructor | src/stores/useFileSystemStore.ts:51-54 | With nothing persisted, the store starts with the default tree at `/`. |
| FileSystemStore.FileSystem.GetNodeAtPath | src/stores/useFileSystemStore.ts:97-112 | The segment-by-segment loop returns the node the path names, or nothing. |
| FileSystemStore.FileSystem.SetCurrentPath | src/stores/useFileSystemStore.ts:114-116 | Stores the path as given and leaves the tree alone. |
| FileSystemStore.FileSystem.CreateNode | src/stores/useFileSystemStore.ts:118-224 | The shared create path: succeeds exactly when `CreateAt` does, and the tree becomes its result. |
| FileSystemStore.FileSystem.CreateFile | src/stores/useFileSystemStore.ts:118-170 | As `CreateAt` for a file; on success the file reads back as `content`, which defaults to empty. |
| FileSystemStore.FileSystem.CreateDirectory | src/stores/useFileSystemStore.ts:172-224 | As `CreateAt` for a directory; on success it lists empty. |
| FileSystemStore.FileSystem.DeleteNode | src/stores/useFileSystemStore.ts:226-265 | As `DeleteAt`; on success the path no longer resolves. |
| FileSystemStore.FileSystem.WriteFile | src/stores/useFileSystemStore.ts:267-312 | As `WriteAt`, keeping the `/blog` invariant. |
| FileSystemStore.FileSystem.ReadFile | src/stores/useFileSystemStore.ts:314-318 | Returns `ReadAt`. |
| FileSystemStore.FileSystem.ListDirectory | src/stores/useFileSystemStore.ts:320-327 | Returns `ListAt`. |
| FileSystemStore.FileSystem.ResetFileSystem | src/stores/useFileSystemStore.ts:329-334 | Back to the default tree at `/`. |
| TerminalStore.TerminalSession.constructor | src/stores/useTerminalStore.ts:20-27 | Empty history, both modals and the panel closed, no post shown. |
| TerminalStore.TerminalSession.AddHistory | src/stores/useTerminalStore.ts:29-41 | Appends exactly one entry with the given command, output, time and error flag (false unless given). Everything else is kept. |
| TerminalStore.TerminalSession.ClearHistory | src/stores/useTerminalStore.ts:43-45 | Empties the history only. |
| TerminalStore.TerminalSession.SetShowImprintModal | src/stores/useTerminalStore.ts:47-49 | Sets the imprint flag only. |
| TerminalStore.TerminalSession.SetShowWhoamiModal | src/stores/useTerminalStore.ts:51-53 | Sets the whoami flag only. |
| TerminalStore.TerminalSession.OpenBlogPanel | src/stores/useTerminalStore.ts:55-61 | Opens the panel on the given content and title; the panel is open exactly when it has a post. |
| TerminalStore.TerminalSession.CloseBlogPanel | src/stores/useTerminalStore.ts:63-69 | Closes the panel and forgets the post. |
| CommandHandler.Pop | src/utils/commandHandler.ts:19-20 | `pop` drops exactly the last segment, if there is one. |
| CommandHandler.DropDots | src/utils/commandHandler.ts:26 | The filter keeps exactly the pieces other than `.`. |
| CommandHandler.DropDotsCounts | src/utils/commandHandler.ts:26 | The filter keeps every piece other than `.` as often as it occurs, and no `.`. |
| CommandHandler.DropDotsAppend | src/utils/commandHandler.ts:26 | The filter keeps the remaining pieces in order: filtering a concatenation concatenates the filtered halves. |
| CommandHandler.ResolvePath | src/utils/commandHandler.ts:9-39 | The push/pop loop returns `Resolved`, the reading the lemmas below characterise. |
| CommandHandler.EntryLines | src/utils/commandHandler.ts:110-114 | `ls` prints one line per entry, the marker of its kind (see `ls` markers under Left out) then its name. |
| CommandHandler.RedirectAt | src/utils/commandHandler.ts:149 | The redirect splits at the first `>` that has a character before and after it; no earlier such `>` exists. |
| CommandHandler.Cd | src/utils/commandHandler.ts:76-95 | `cd` never changes the tree and opens nothing; when it fails the directory stays where it was. |
| CommandHandler.Touch | src/utils/commandHandler.ts:119-130 | `touch` keeps the directory and opens nothing; when it fails the tree is unchanged. |
| CommandHandler.Mkdir | src/utils/commandHandler.ts:132-143 | `mkdir` keeps the directory and opens nothing; when it fails the tree is unchanged. |
| CommandHandler.Echo | src/utils/commandHandler.ts:145-177 | `echo` keeps the directory and opens nothing; when it fails the tree is unchanged. |
| CommandHandler.Redirect | src/utils/commandHandler.ts:155-173 | Writing a redirect keeps the directory and opens nothing; when it fails the tree is unchanged. |
| CommandHandler.Rm | src/utils/commandHandler.ts:220-231 | `rm` keeps the directory and opens nothing; when it fails the tree is unchanged. |
| CommandHandler.MatchingLines | src/utils/commandHandler.ts:206-208 | A line is kept exactly when the pattern matches it, searched from its start, and no more lines come out than went in. It is the corrected filter of the grep finding. |
| CommandHandler.MatchingLine | src/utils/commandHandler.ts:207-208 | One line comes out exactly when the pattern matches it. |
| CommandHandler.MatchingLinesAppend | src/utils/commandHandler.ts:207-214 | Filtering two runs of lines is filtering each in turn, so matching lines keep their file order and repeats. |
| CommandHandler.HandleCommand | src/utils/commandHandler.ts:41-264 | Through the two stores, returns `Interpret`'s result and leaves its tree, directory and terminal effect. |
| CommandHandler.RunVerb | src/utils/commandHandler.ts:52-143 | The first part of the `switch`, proved equal to `Dispatch`. |
| CommandHandler.RunRest | src/utils/commandHandler.ts:145-231 | `echo` to `rm`, proved equal to `DispatchRest`. |
| CommandHandler.RunSession | src/utils/commandHandler.ts:233-262 | `open`, `whoami` and unknown verbs, proved equal to `DispatchSession`. |
| CommandHandler.RunCd | src/utils/commandHandler.ts:76-95 | `cd` through the store equals `Cd`. |
| CommandHandler.RunLs | src/utils/commandHandler.ts:97-117 | `ls` through the store equals `Ls`. |
| CommandHandler.RunTouch | src/utils/commandHandler.ts:119-130 | `touch` through the store equals `Touch`. |
| CommandHandler.RunMkdir | src/utils/commandHandler.ts:132-143 | `mkdir` through the store equals `Mkdir`. |
| CommandHandler.RunEcho | src/utils/commandHandler.ts:145-177 | `echo` through the store equals `Echo`. |
| CommandHandler.RunCat | src/utils/commandHandler.ts:179-190 | `cat` through the store equals `Cat`. |
| CommandHandler.RunGrep | src/utils/commandHandler.ts:192-218 | `grep` through the store equals `Grep`. |
| CommandHandler.RunRm | src/utils/commandHandler.ts:220-231 | `rm` through the store equals `Rm`. |
| CommandHandler.RunOpen | src/utils/commandHandler.ts:233-254 | `open` equals `Open` and shows its panel effect on the session. |
| CommandProperties.ResolvedIsAbsolute | src/utils/commandHandler.ts:9-39 | From an absolute working directory every resolved path is absolute. |
| CommandProperties.ParentInBothRegimes | src/utils/commandHandler.ts:18-22 | `..` is the parent for `resolvePath` but a child literally named `..` for the store. |
| CommandProperties.ResolvedUpThen | src/utils/commandHandler.ts:24-36 | `../name` resolves to the string `/` + the parent's segments + `name`, joined by `/`, so its segments are the parent's plus `name`. |
| CommandProperties.ResolvedPlain | src/utils/commandHandler.ts:38 | Any other relative path names the same segments in both readings. |
| CommandProperties.ResolvedParentExample | src/utils/commandHandler.ts:18-22 | `..` from `/blog` is `/`. |
| CommandProperties.ResolvedSiblingExample | src/utils/commandHandler.ts:24-36 | `../blog` from `/x` resolves to the string `/blog`, whose one segment is `blog`. |
| CommandProperties.ResolvedNestedExample | src/utils/commandHandler.ts:24-36 | `../blog` from `/blog/x` resolves to the string `/blog/blog`: `..` pops only `x`. |
| CommandProperties.BlankLine | src/utils/commandHandler.ts:42-43 | A blank or whitespace-only line prints nothing and changes nothing. |
| CommandProperties.InterpretWords | src/utils/commandHandler.ts:42-47 | The verb is the first word lower-cased; the arguments are the remaining words. |
| CommandProperties.UnknownVerb | src/utils/commandHandler.ts:261-262 | For any line whose trimmed words are an unknown verb (in any letter case) and its arguments, with any spacing, the verb is reported lower-cased as not found, and nothing changes. |
| CommandProperties.MissingOperand | src/utils/commandHandler.ts:119-236 | Any line whose only word is a verb that needs an operand, with any padding, reports that verb's fixed message, and nothing changes. |
| CommandProperties.GrepOneOperand | src/utils/commandHandler.ts:193-195 | `grep` with a pattern but no file reports the missing operand. |
| CommandProperties.InterpretKeeps | src/utils/commandHandler.ts:41-264 | For every line: an error changes nothing, `/blog` survives and an absolute working directory stays absolute. |
| CommandProperties.ErrorsChangeNothing | src/utils/commandHandler.ts:41-264 | A line that fails leaves the tree, the directory and the session as they were. |
| CommandProperties.InterpretKeepsBlog | src/utils/commandHandler.ts:220-231 | No line removes `/blog`. |
| CommandProperties.InterpretKeepsCwdAbsolute | src/utils/commandHandler.ts:76-95 | The working directory stays absolute. |
| CommandProperties.CdHome | src/utils/commandHandler.ts:77-80 | `cd` with no argument goes to `/`. |
| CommandProperties.CdLandsOnDirectory | src/utils/commandHandler.ts:82-94 | A `cd` that succeeds lands on an existing directory. |
| CommandProperties.LsOutput | src/utils/commandHandler.ts:97-117 | `ls` prints one line per listed entry, in listing order, each a marker and the name. An empty listing prints nothing. |
| CommandProperties.OpenMarkdown | src/utils/commandHandler.ts:233-254 | Opening a markdown file shows its content under a title derived from its last path piece. The title is that name with its first `.md` removed, which is at or before the final one, and each `-` turned into a space, character by character. |
| CommandProperties.RedirectOfWords | src/utils/commandHandler.ts:149-153 | `w > f` splits at that `>` into the trimmed `w` and `f`. |
| CommandProperties.RedirectWrites | src/utils/commandHandler.ts:155-173 | Redirecting into a plain name overwrites an existing file or creates it, and either way it reads back as the content. |
| CommandProperties.CatPrints | src/utils/commandHandler.ts:179-190 | `cat` prints what the store reads. |
| CommandProperties.EchoThenCat | src/utils/commandHandler.ts:145-190 | `echo w > f` then `cat f` prints `w`, whether or not `f` existed as a file. |
| CommandProperties.GrepOutput | src/utils/commandHandler.ts:205-214 | `grep` prints the matching lines one per line, or nothing if none match. |
| CommandProperties.StickyLines | src/utils/commandHandler.ts:206-208 | The filter as written: each test resumes where the previous match ended. |
| CommandProperties.LiteralSearch | src/utils/commandHandler.ts:206 | A literal search returns the end of an occurrence at or after the start index, and nothing only when no occurrence starts there or later. |
| CommandProperties.GrepSkipsLine | src/utils/commandHandler.ts:206-208 | With content `xa`/`a` and pattern `a`, the filter as written drops the second line, which the corrected filter keeps. |
| BlogLoader.BlogPosts | src/utils/loadBlogPosts.ts:8-12 | Three posts with distinct, slash-free names carrying the three bundled texts. |
| BlogLoader.PostPathParts | src/utils/loadBlogPosts.ts:23-25 | `/blog/name` is walked as `blog` then `name`. |
| BlogLoader.LoadBlogPosts | src/utils/loadBlogPosts.ts:14-28 | The loop through the store leaves the tree `Loaded` describes. |
| BlogLoader.SeedPostEffect | src/utils/loadBlogPosts.ts:22-27 | One step creates a missing post with its content, never touches an existing one or other post paths, and keeps `/blog`. |
| BlogLoader.SeedPostsEffect | src/utils/loadBlogPosts.ts:22-27 | The whole loop: each post path holds what was there or the new file, and other post paths are untouched. |
| BlogLoader.SeedPostsOutside | src/utils/loadBlogPosts.ts:22-27 | The loop changes no path outside `/blog`: each `createFile` there rebuilds only `/` and `/blog`. |
| BlogLoader.SeedPostsPresent | src/utils/loadBlogPosts.ts:23-24 | When every post is present, the loop changes nothing. |
| BlogLoader.LoadedEffect | src/utils/loadBlogPosts.ts:14-28 | On a valid tree, loading never overwrites a post and creates each missing one with its content. |
| BlogLoader.LoadedFrame | src/utils/loadBlogPosts.ts:14-28 | On a valid tree, loading leaves every other name under `/blog`, and every path outside `/blog`, resolving as before. |
| BlogLoader.LoadedIdempotent | src/utils/loadBlogPosts.ts:17-27 | Loading twice is loading once. |
| BlogLoader.FirstLoad | src/utils/loadBlogPosts.ts:14-28 | On the default tree, every bundled post reads back as its text. |
| Text.SplitJoin | src/utils/commandHandler.ts:207-214 | `join` then `split` with the same separator gives the pieces back. |
| Text.JoinSplit | src/utils/commandHandler.ts:207-214 | `split` then `join` with the same separator gives the string back. |
| Text.WordsOfJoin | src/utils/commandHandler.ts:45 | `split(/\s+/)` of words joined by spaces gives the words back. |
| Text.TrimPadded | src/utils/commandHandler.ts:42 | `trim` of whitespace, then a string with no whitespace at either end, then whitespace, is that string. |
| Text.RemoveFirst | src/utils/commandHandler.ts:250 | `replace` with a string pattern removes the first occurrence, found by `IndexOf`, and leaves a string without one as it is. |
| Text.IndexOfShift | src/utils/commandHandler.ts:250 | Searching a string from index `k + 1` finds what searching its tail from `k` finds, one index further on. |
| Text.LexTotal | src/stores/useFileSystemStore.ts:324 | The name order is total. |
| Text.LexTransitive | src/stores/useFileSystemStore.ts:324 | The name order is transitive. |
| Text.LexAntisymmetric | src/stores/useFileSystemStore.ts:324 | The name order is antisymmetric. |

## Left out

- Persistence: `loadFileSystem`, `saveFileSystem` and `persistAndSet` are left out (`localStorage`, JSON, reviving dates, console logging). A store always starts from the default tree, and a restored tree is any `Node`.
- Dates: every `new Date()` is a tick `now: nat` passed in. One operation stamps all its nodes with the same tick.
- `sessionStartTime` is a tick given to the constructor.
- grep's regular expressions are not interpreted. They are a parameter: whether a pattern compiles, and the end of the first case-insensitive match at or after an index. `MatchingLines` searches each line from its start. The `lastIndex` carry-over of the `g` flag is modelled only by `StickyLines`, in the finding below.
- `localeCompare` is code-point order. It differs from locale collation on mixed-case names (collation puts `a.md` before `B.md`, code-point order puts `B.md` first) and on some punctuation (collation puts `_` before `-`). So `ListAt`, `ListDirectory` and `ls` can order such names differently from the site. Locale collation is left out.
- `ls` markers: the text of src/utils/commandHandler.ts:112 holds the pictographs' UTF-8 bytes read as Windows-1252 (`ðŸ“` with the last byte lost, and `ðŸ“„`). The model prints the intended U+1F4C1 (folder) and U+1F4C4 (page), each followed by a space, as `Marker` states.
- `toLowerCase` is ASCII only.
- `Object.values` order: insertion order is not tracked. The children are enumerated in name order before the stable sort, so ties are ordered by name.
- JavaScript plain-object keys inherited from the prototype (`constructor`, `toString`) are not looked up: children are a true map.
- The `echo` redirect is the JavaScript expression `^(.+?)\s*>\s*(.+)$` applied to words joined by single spaces. The text then holds no line terminator, so the match is: the first `>` after at least one character and before at least one more. Both sides are trimmed.
- The bundled markdown (`?raw` imports) is a parameter of `BlogPosts`.
- React components, the zustand stores' subscriptions and re-rendering, the modals and the blog panel's rendering are left out. So is the terminal input with its command-history navigation; `src/components/Terminal.tsx` is not part of this model beyond the note that a submitted line runs `handleCommand` and then `addHistory`.
- FileSystemStore.DeleteEffect: states the frame for diverging paths and the disappearance of the target. It does not state the `modifiedAt` stamps on ancestors, which `CreateEffect` states for creation.
- BlogLoader.LoadedEffect: requires the tree to satisfy the store's invariant (a directory `/blog` with a children map) and the posts to have distinct slash-free names. `BlogPosts` proves that the bundled posts have such names.
- CommandProperties.EchoThenCat: covers a single-word content and a plain file name in the working directory. Multi-word content and names with `/` are left to the general `Echo` definition.

## Findings

| source | as written | input that shows it | evidently intended | confidence | as-written member | corrected member |
|---|---|---|---|---|---|---|
| src/utils/commandHandler.ts:206-208 | The pattern is compiled once with the `g` flag and reused by `test` on every line. Each test resumes at the `lastIndex` the previous match left, so a line that follows a matching line is searched only from that index. | File content `xa` then `a` on the next line, pattern `a`: `grep a f` prints only `xa`. | Every line containing a match is printed. | high, not executed | CommandProperties.StickyLines, CommandProperties.GrepSkipsLine | CommandHandler.MatchingLines |
